/** Dropping constants, cancelling common terms and comparing trees:
    expr_eliminate_yn, expr_eliminate_eq, expr_eq and expr_extract_eq of support/kconfig/expr.c. */
module ExprCompare {
  import opened Tristates
  import opened Wrappers
  import opened Expressions

  // ---------- expr_eliminate_yn ----------

  /** An AND or OR node over two cleaned operands. */
  function Fold(op: Op, l: Expr, r: Expr): Expr {
    if IsAbsorber(l, op) then l
    else if IsUnit(l, op) then r
    else if IsAbsorber(r, op) then r
    else if IsUnit(r, op) then l
    else Bin(op, l, r)
  }

  function EliminateYn(e: Expr): (r: Expr)
    ensures Size(r) <= Size(e)
  {
    if e.Bin? then Fold(e.op, EliminateYn(e.left), EliminateYn(e.right)) else e
  }

  lemma {:induction false} EliminateYnKeepsValue(e: Expr, env: Env)
    ensures Eval(EliminateYn(e), env) == Eval(e, env)
  {
    if e.Bin? {
      EliminateYnKeepsValue(e.left, env);
      EliminateYnKeepsValue(e.right, env);
    }
  }

  /** Some AND or OR node outside NOT has y or n as an operand. */
  predicate Reducible(e: Expr) {
    e.Bin? && (IsConstOperand(e.left) || IsConstOperand(e.right) || Reducible(e.left) || Reducible(e.right))
  }

  predicate IsConstOperand(e: Expr) {
    e == Symbol(Yes) || e == Symbol(No)
  }

  /** Nothing is left to drop, and a tree that had something to drop got smaller. */
  lemma {:induction false} EliminateYnIsThorough(e: Expr)
    ensures !Reducible(EliminateYn(e))
    ensures BinCount(EliminateYn(e)) <= BinCount(e)
    ensures Reducible(e) ==> BinCount(EliminateYn(e)) < BinCount(e)
    ensures !Reducible(e) ==> EliminateYn(e) == e
  {
    if e.Bin? {
      EliminateYnIsThorough(e.left);
      EliminateYnIsThorough(e.right);
    }
  }

  lemma {:induction false} EliminateYnKeepsShape(e: Expr)
    requires NotOnSymbols(e)
    ensures NotOnSymbols(EliminateYn(e))
  {
    if e.Bin? {
      EliminateYnKeepsShape(e.left);
      EliminateYnKeepsShape(e.right);
    }
  }

  // ---------- expr_eq and expr_eliminate_eq ----------

  /** The leaf case of __expr_eliminate_eq: two equal leaves are replaced by the neutral constant. */
  predicate CommonConst(a: Expr, b: Expr) {
    a == b && IsConstOperand(a)
  }

  /** __expr_eliminate_eq: both trees after the call. */
  function EliminateEqIn(op: Op, a: Expr, b: Expr): (r: (Expr, Expr))
    ensures Size(r.0) <= Size(a) && Size(r.1) <= Size(b)
    decreases Size(a) + Size(b), if IsBin(a, op) || IsBin(b, op) then 0 else 3
  {
    if IsBin(a, op) then
      var (l, b1) := EliminateEqIn(op, a.left, b);
      var (r, b2) := EliminateEqIn(op, a.right, b1);
      (Bin(op, l, r), b2)
    else if IsBin(b, op) then
      var (a1, l) := EliminateEqIn(op, a, b.left);
      var (a2, r) := EliminateEqIn(op, a1, b.right);
      (a2, Bin(op, l, r))
    else if CommonConst(a, b) || !ExprEq(a, b) then (a, b)
    else (Symbol(Unit(op)), Symbol(Unit(op)))
  }

  /** expr_eliminate_eq on non-null trees. */
  function EliminateEq(a: Expr, b: Expr): (r: (Expr, Expr))
    ensures Size(r.0) <= Size(a) && Size(r.1) <= Size(b)
    decreases Size(a) + Size(b), 1
  {
    var (a1, b1) := if a.Bin? then EliminateEqIn(a.op, a, b) else (a, b);
    var (a2, b2) := if b1.Bin? && !SameKind(a1, b1) then EliminateEqIn(b1.op, a1, b1) else (a1, b1);
    (EliminateYn(a2), EliminateYn(b2))
  }

  /** expr_eq. For AND and OR it cancels common terms in copies and compares what is left. */
  function ExprEq(a: Expr, b: Expr): bool
    decreases Size(a) + Size(b), 2
  {
    if !SameKind(a, b) then false
    else
      match a
      case Symbol(_) => a == b
      case Equal(_, _) => a == b
      case Unequal(_, _) => a == b
      case Not(x) => ExprEq(x, b.operand)
      case Bin(_, _, _) =>
        var (x, y) := EliminateEq(a, b);
        x.Symbol? && y.Symbol? && x.sym == y.sym
  }

  /** The value removed from both trees: joined with what is left it gives the originals back. */
  ghost predicate Splits(op: Op, a: Expr, b: Expr, a': Expr, b': Expr, common: Tri, env: Env) {
    && Eval(a, env) == Apply(op, Eval(a', env), common)
    && Eval(b, env) == Apply(op, Eval(b', env), common)
  }

  /** Two successive cancellations along one side, the other side going from b to b1 to b2. */
  lemma SplitsCompose(op: Op, l: Tri, r: Tri, b: Tri, l': Tri, r': Tri, b1: Tri, b2: Tri, c: Tri, d: Tri)
    requires l == Apply(op, l', c) && b == Apply(op, b1, c)
    requires r == Apply(op, r', d) && b1 == Apply(op, b2, d)
    ensures Apply(op, l, r) == Apply(op, Apply(op, l', r'), Apply(op, c, d))
    ensures b == Apply(op, b2, Apply(op, c, d))
  {
  }

  lemma {:induction false} EliminateEqInSplits(op: Op, a: Expr, b: Expr, env: Env) returns (c: Tri)
    ensures Splits(op, a, b, EliminateEqIn(op, a, b).0, EliminateEqIn(op, a, b).1, c, env)
    decreases Size(a) + Size(b), if IsBin(a, op) || IsBin(b, op) then 0 else 3
  {
    var rest := TriOf(Unit(op), env);
    if IsBin(a, op) {
      var (l, b1) := EliminateEqIn(op, a.left, b);
      var (r, b2) := EliminateEqIn(op, a.right, b1);
      var c1 := EliminateEqInSplits(op, a.left, b, env);
      var c2 := EliminateEqInSplits(op, a.right, b1, env);
      SplitsCompose(op, Eval(a.left, env), Eval(a.right, env), Eval(b, env),
                    Eval(l, env), Eval(r, env), Eval(b1, env), Eval(b2, env), c1, c2);
      c := Apply(op, c1, c2);
    } else if IsBin(b, op) {
      var (a1, l) := EliminateEqIn(op, a, b.left);
      var (a2, r) := EliminateEqIn(op, a1, b.right);
      var c1 := EliminateEqInSplits(op, a, b.left, env);
      var c2 := EliminateEqInSplits(op, a1, b.right, env);
      SplitsCompose(op, Eval(b.left, env), Eval(b.right, env), Eval(a, env),
                    Eval(l, env), Eval(r, env), Eval(a1, env), Eval(a2, env), c1, c2);
      c := Apply(op, c1, c2);
    } else if CommonConst(a, b) || !ExprEq(a, b) {
      c := rest;
    } else {
      ExprEqSound(a, b, env);
      c := Eval(a, env);
    }
  }

  /** expr_eq is sound: trees it calls equal have the same value under every assignment. */
  lemma {:induction false} ExprEqSound(a: Expr, b: Expr, env: Env)
    requires ExprEq(a, b)
    ensures Eval(a, env) == Eval(b, env)
    decreases Size(a) + Size(b), 2
  {
    match a
    case Not(x) => ExprEqSound(x, b.operand, env);
    case Bin(_, _, _) => EliminateEqBackwards(a, b, env);
    case _ =>
  }

  /** If cancelling leaves equal values then the trees had equal values, and cancelling never
      hides a difference the other way: the first tree and the rest of the second imply the second. */
  lemma {:induction false} EliminateEqBackwards(a: Expr, b: Expr, env: Env)
    ensures
      var (x, y) := EliminateEq(a, b);
      && (Eval(x, env) == Eval(y, env) ==> Eval(a, env) == Eval(b, env))
      && Min(Eval(a, env), Eval(y, env)) <= Eval(b, env)
    decreases Size(a) + Size(b), 1
  {
    var (a1, b1) := if a.Bin? then EliminateEqIn(a.op, a, b) else (a, b);
    if a.Bin? {
      var c := EliminateEqInSplits(a.op, a, b, env);
    }
    var second := b1.Bin? && !SameKind(a1, b1);
    var (a2, b2) := if second then EliminateEqIn(b1.op, a1, b1) else (a1, b1);
    if second {
      var c := EliminateEqInSplits(b1.op, a1, b1, env);
    }
    EliminateYnKeepsValue(a2, env);
    EliminateYnKeepsValue(b2, env);
  }

  /** The test of menu_finalize for an automatic submenu: when the base dependency cancels away
      completely, the entry's dependency implies it under every assignment. */
  lemma CancelledBaseIsImplied(dep: Expr, base: Expr, env: Env)
    requires IsYes(EliminateEq(dep, base).1)
    ensures Eval(dep, env) <= Eval(base, env)
  {
    EliminateEqBackwards(dep, base, env);
  }

  // ---------- expr_extract_eq ----------

  datatype Extracted = Extracted(common: Option<Expr>, first: Expr, second: Expr)

  /** expr_extract_eq: the common terms collected so far and both trees after the call. */
  function ExtractEq(op: Op, common: Option<Expr>, a: Expr, b: Expr): (r: Extracted)
    ensures Size(r.first) <= Size(a) && Size(r.second) <= Size(b)
    decreases Size(a) + Size(b)
  {
    if IsBin(a, op) then
      var x := ExtractEq(op, common, a.left, b);
      var y := ExtractEq(op, x.common, a.right, x.second);
      Extracted(y.common, Bin(op, x.first, y.first), y.second)
    else if IsBin(b, op) then
      var x := ExtractEq(op, common, a, b.left);
      var y := ExtractEq(op, x.common, x.first, b.right);
      Extracted(y.common, y.first, Bin(op, x.second, y.second))
    else if ExprEq(a, b) then
      Extracted(Alloc(op, common, Some(a)), Symbol(Unit(op)), Symbol(Unit(op)))
    else
      Extracted(common, a, b)
  }

  /** expr_extract_eq_and and expr_extract_eq_or. */
  function ExtractEqTop(op: Op, a: Expr, b: Expr): Extracted {
    var x := ExtractEq(op, None, a, b);
    if x.common.None? then x
    else Extracted(x.common, EliminateYn(x.first), EliminateYn(x.second))
  }

  function CommonValue(op: Op, common: Option<Expr>, env: Env): Tri {
    if common.None? then TriOf(Unit(op), env) else Eval(common.value, env)
  }

  /** Nothing is lost: each tree is what remained of it joined with what was taken out. */
  lemma ApplyAssociates(op: Op, a: Tri, b: Tri, c: Tri)
    ensures Apply(op, Apply(op, a, b), c) == Apply(op, a, Apply(op, b, c))
  {
  }

  lemma {:induction false} ExtractEqRecombines(op: Op, common: Option<Expr>, a: Expr, b: Expr, env: Env) returns (taken: Tri)
    ensures var x := ExtractEq(op, common, a, b);
            && Splits(op, a, b, x.first, x.second, taken, env)
            && CommonValue(op, x.common, env) == Apply(op, CommonValue(op, common, env), taken)
    decreases Size(a) + Size(b)
  {
    taken := TriOf(Unit(op), env);
    if IsBin(a, op) {
      var x := ExtractEq(op, common, a.left, b);
      var y := ExtractEq(op, x.common, a.right, x.second);
      var t := ExtractEqRecombines(op, common, a.left, b, env);
      var u := ExtractEqRecombines(op, x.common, a.right, x.second, env);
      SplitsCompose(op, Eval(a.left, env), Eval(a.right, env), Eval(b, env),
                    Eval(x.first, env), Eval(y.first, env), Eval(x.second, env), Eval(y.second, env), t, u);
      ApplyAssociates(op, CommonValue(op, common, env), t, u);
      taken := Apply(op, t, u);
    } else if IsBin(b, op) {
      var x := ExtractEq(op, common, a, b.left);
      var y := ExtractEq(op, x.common, x.first, b.right);
      var t := ExtractEqRecombines(op, common, a, b.left, env);
      var u := ExtractEqRecombines(op, x.common, x.first, b.right, env);
      SplitsCompose(op, Eval(b.left, env), Eval(b.right, env), Eval(a, env),
                    Eval(x.second, env), Eval(y.second, env), Eval(x.first, env), Eval(y.first, env), t, u);
      ApplyAssociates(op, CommonValue(op, common, env), t, u);
      taken := Apply(op, t, u);
    } else if ExprEq(a, b) {
      ExprEqSound(a, b, env);
      taken := Eval(a, env);
      CommonGrows(op, common, a, env);
    }
  }

  lemma CommonGrows(op: Op, common: Option<Expr>, a: Expr, env: Env)
    ensures CommonValue(op, Alloc(op, common, Some(a)), env) == Apply(op, CommonValue(op, common, env), Eval(a, env))
  {
  }

  lemma ExtractEqTopRecombines(op: Op, a: Expr, b: Expr, env: Env)
    ensures var x := ExtractEqTop(op, a, b);
            && Eval(a, env) == Apply(op, Eval(x.first, env), CommonValue(op, x.common, env))
            && Eval(b, env) == Apply(op, Eval(x.second, env), CommonValue(op, x.common, env))
  {
    var x := ExtractEq(op, None, a, b);
    var t := ExtractEqRecombines(op, None, a, b, env);
    EliminateYnKeepsValue(x.first, env);
    EliminateYnKeepsValue(x.second, env);
  }
}
