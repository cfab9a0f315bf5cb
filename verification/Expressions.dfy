/** Dependency expressions: the trees of support/kconfig/expr.h and their value. */
module Expressions {
  import opened Tristates
  import opened Wrappers

  datatype SymType = Unknown | Boolean | Tristate | Int | Hex | String

  /** A symbol, compared by identity. Lit is a constant that was written as a quoted or bare
      text; looking up the texts "y", "m" and "n" always gives the three special symbols. */
  datatype RawSym = Yes | Mod | No | Lit(text: string) | Var(id: nat, typ: SymType)

  type Sym = s: RawSym | s.Lit? ==> s.text !in {"y", "m", "n"} witness Yes

  function TypeOf(s: Sym): SymType {
    if s.Var? then s.typ else Unknown
  }

  /** SYMBOL_CONST */
  predicate IsConst(s: Sym) {
    !s.Var?
  }

  predicate IsTri(s: Sym) {
    TypeOf(s) in {Boolean, Tristate}
  }

  predicate Special(s: Sym) {
    s.Yes? || s.Mod? || s.No?
  }

  /** An assignment gives every symbol a tristate and a string. Reading it through TriOf and
      StrOf makes it typed: a boolean is never m, and only symbols of type boolean and tristate
      have a value other than n, which their string then spells out. */
  datatype Env = Env(tri: nat -> Tri, str: nat -> string)

  function TriOf(s: Sym, env: Env): Tri {
    match s
    case Yes => YES
    case Mod => MOD
    case No => NO
    case Lit(_) => NO
    case Var(id, Boolean) => if env.tri(id) == NO then NO else YES
    case Var(id, Tristate) => env.tri(id)
    case Var(_, _) => NO
  }

  function StrOf(s: Sym, env: Env): string {
    match s
    case Lit(text) => text
    case Var(id, typ) => if IsTri(s) then Name(TriOf(s, env)) else env.str(id)
    case _ => Name(TriOf(s, env))
  }

  /** E_AND and E_OR share every rewriting function, which takes the operator as a parameter. */
  datatype Op = And | Or

  function Dual(op: Op): Op {
    if op == And then Or else And
  }

  function Apply(op: Op, a: Tri, b: Tri): Tri {
    if op == And then Min(a, b) else Max(a, b)
  }

  /** The constant that changes nothing, and the one that decides the result. */
  function Unit(op: Op): Sym {
    if op == And then Yes else No
  }

  function Absorber(op: Op): Sym {
    if op == And then No else Yes
  }

  datatype Expr =
    | Symbol(sym: Sym)
    | Not(operand: Expr)
    | Bin(op: Op, left: Expr, right: Expr)
    | Equal(lhs: Sym, rhs: Sym)
    | Unequal(lhs: Sym, rhs: Sym)

  predicate IsBin(e: Expr, op: Op) {
    e.Bin? && e.op == op
  }

  /** The `type` fields agree. */
  predicate SameKind(a: Expr, b: Expr) {
    match a
    case Symbol(_) => b.Symbol?
    case Not(_) => b.Not?
    case Bin(op, _, _) => IsBin(b, op)
    case Equal(_, _) => b.Equal?
    case Unequal(_, _) => b.Unequal?
  }

  /** expr_calc_value on an assignment. */
  function Eval(e: Expr, env: Env): Tri {
    match e
    case Symbol(s) => TriOf(s, env)
    case Not(x) => Negate(Eval(x, env))
    case Bin(op, l, r) => Apply(op, Eval(l, env), Eval(r, env))
    case Equal(a, b) => OfBool(StrOf(a, env) == StrOf(b, env))
    case Unequal(a, b) => OfBool(StrOf(a, env) != StrOf(b, env))
  }

  /** A null expression means "no condition". */
  function EvalOpt(e: Option<Expr>, env: Env): Tri {
    if e.None? then YES else Eval(e.value, env)
  }

  function Size(e: Expr): nat {
    match e
    case Not(x) => 1 + Size(x)
    case Bin(_, l, r) => 1 + Size(l) + Size(r)
    case _ => 1
  }

  /** The AND and OR nodes that are not below a NOT. */
  function BinCount(e: Expr): nat {
    if e.Bin? then 1 + BinCount(e.left) + BinCount(e.right) else 0
  }

  /** NOT is applied to plain symbols only. */
  predicate NotOnSymbols(e: Expr) {
    match e
    case Not(x) => x.Symbol?
    case Bin(_, l, r) => NotOnSymbols(l) && NotOnSymbols(r)
    case _ => true
  }

  predicate IsYes(e: Expr) {
    e == Symbol(Yes)
  }

  predicate IsUnit(e: Expr, op: Op) {
    e == Symbol(Unit(op))
  }

  predicate IsAbsorber(e: Expr, op: Op) {
    e == Symbol(Absorber(op))
  }

  /** expr_alloc_and and expr_alloc_or: null is the neutral operand. */
  function Alloc(op: Op, a: Option<Expr>, b: Option<Expr>): Option<Expr> {
    if a.None? then b else if b.None? then a else Some(Bin(op, a.value, b.value))
  }

  /** expr_contains_symbol */
  predicate Contains(e: Expr, s: Sym) {
    match e
    case Symbol(x) => x == s
    case Not(x) => Contains(x, s)
    case Bin(_, l, r) => Contains(l, s) || Contains(r, s)
    case Equal(a, b) => a == s || b == s
    case Unequal(a, b) => a == s || b == s
  }

  /** expr_depends_symbol */
  predicate DependsOn(e: Expr, s: Sym) {
    match e
    case Symbol(x) => x == s
    case Bin(op, l, r) => op == And && (DependsOn(l, s) || DependsOn(r, s))
    case Equal(a, b) => a == s && (b == Yes || b == Mod)
    case Unequal(a, b) => a == s && b == No
    case Not(_) => false
  }

  /** What expr_depends_symbol is for: the tree cannot be on while the symbol is off. */
  lemma {:induction false} DependsImpliesOn(e: Expr, s: Sym, env: Env)
    requires DependsOn(e, s) && (IsTri(s) || Special(s))
    ensures Eval(e, env) != NO ==> TriOf(s, env) != NO
  {
    if e.Bin? {
      if DependsOn(e.left, s) {
        DependsImpliesOn(e.left, s, env);
      } else {
        DependsImpliesOn(e.right, s, env);
      }
    }
  }

  /** Symbols that occur nowhere in a tree do not matter to it. */
  lemma {:induction false} EvalReadsContained(e: Expr, env: Env, env': Env)
    requires forall id, typ :: Contains(e, Var(id, typ)) ==> env.tri(id) == env'.tri(id) && env.str(id) == env'.str(id)
    ensures Eval(e, env) == Eval(e, env')
  {
    match e
    case Symbol(s) => assert Contains(e, s);
    case Not(x) =>
      assert forall s :: Contains(x, s) ==> Contains(e, s);
      EvalReadsContained(x, env, env');
    case Bin(_, l, r) =>
      assert forall s :: Contains(l, s) || Contains(r, s) ==> Contains(e, s);
      EvalReadsContained(l, env, env');
      EvalReadsContained(r, env, env');
    case Equal(a, b) => assert Contains(e, a) && Contains(e, b);
    case Unequal(a, b) => assert Contains(e, a) && Contains(e, b);
  }
}
