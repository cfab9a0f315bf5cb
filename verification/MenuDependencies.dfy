/** How menu_finalize of support/kconfig/menu.c computes the conditions of entries and decides that
    an entry belongs into an automatic submenu of the symbol above it. */
module MenuDependencies {
  import opened Tristates
  import opened Wrappers
  import opened Expressions
  import opened ExprCompare
  import opened ExprTransform
  import opened ExprJoin
  import opened ExprSpine
  import opened ExprThorough
  import opened ExprDups

  predicate NormalOpt(e: Option<Expr>) {
    e.Some? ==> Normal(e.value)
  }

  /** expr_eliminate_dups(e), where null stays null. */
  method SimplifyOpt(e: Option<Expr>) returns (r: Option<Expr>)
    ensures r.None? <==> e.None?
    ensures forall env :: Sharpens(EvalOpt(e, env), EvalOpt(r, env))
    ensures NormalOpt(e) ==> NormalOpt(r)
    ensures r.Some? ==> NoJoin(r.value) && NoOppose(r.value)
  {
    if e.None? { return e; }
    var w := new Rewriter(e.value);
    w.EliminateDups();
    r := Some(w.root);
  }

  function TransformOpt(e: Option<Expr>): Option<Expr> {
    if e.None? then None else Some(Transform(e.value))
  }

  function TransBoolOpt(e: Option<Expr>): Option<Expr> {
    if e.None? then None else Some(TransBool(e.value))
  }

  lemma TransformOptFacts(e: Option<Expr>, env: Env)
    ensures EvalOpt(TransformOpt(e), env) == EvalOpt(e, env) && NormalOpt(TransformOpt(e))
  {
    if e.Some? {
      TransformKeepsValue(e.value, env);
      TransformNormalizes(e.value);
    }
  }

  /** The new condition of an entry below one with condition outer: where outer && own is
      definite the result has the same value. */
  method Conjoin(outer: Option<Expr>, own: Option<Expr>) returns (r: Option<Expr>)
    ensures forall env :: Sharpens(Min(EvalOpt(outer, env), EvalOpt(own, env)), EvalOpt(r, env))
    ensures NormalOpt(outer) ==> NormalOpt(r)
    ensures r.None? <==> outer.None? && own.None?
  {
    var both := Alloc(And, outer, TransformOpt(own));
    forall env
      ensures EvalOpt(both, env) == Min(EvalOpt(outer, env), EvalOpt(own, env))
      ensures NormalOpt(outer) ==> NormalOpt(both)
    {
      TransformOptFacts(own, env);
    }
    TransformOptFacts(own, Env(_ => NO, _ => ""));
    r := SimplifyOpt(both);
  }

  /** The condition of a property: for a symbol that is not tristate FOO!=n may become FOO, which
      such a symbol, taking m for y, cannot tell from the condition without that rewrite. */
  method PropertyCondition(basedep: Option<Expr>, visible: Option<Expr>, typ: SymType)
    returns (r: Option<Expr>, ghost plain: Option<Expr>)
    requires NormalOpt(basedep)
    ensures forall env :: Sharpens(Min(EvalOpt(basedep, env), EvalOpt(visible, env)), EvalOpt(plain, env))
    ensures typ == Tristate ==> r == plain
    ensures forall env :: Promote(EvalOpt(r, env)) == Promote(EvalOpt(plain, env))
    ensures NormalOpt(r)
  {
    r := Conjoin(basedep, visible);
    plain := r;
    if typ != Tristate {
      if r.Some? { TransBoolKeepsNormal(r.value); }
      r := TransBoolOpt(r);
      forall env
        ensures Promote(EvalOpt(r, env)) == Promote(EvalOpt(plain, env))
      {
        if plain.Some? {
          NormalNotOnSymbols(plain.value);
          TransBoolInvisible(plain.value, env);
        }
      }
    }
  }

  /** The question "is it other than n?" about a condition, before expr_eliminate_dups. */
  function OnQuestion(e: Option<Expr>): Expr {
    Transform(TransCompareOpt(e, false, No))
  }

  /** Nothing is left for expr_eliminate_dups to do. */
  ghost predicate Settled(e: Expr) {
    NoJoin(e) && NoOppose(e)
  }

  /** A condition as menu_finalize compares it. */
  method OnTest(e: Option<Expr>) returns (r: Expr)
    ensures forall env :: TruthSymbolsOpt(e) && NegatesDefiniteOpt(e, env) ==>
      Eval(r, env) == OfBool(EvalOpt(e, env) != NO)
    ensures r == OnQuestion(e) <==> Settled(OnQuestion(e))
  {
    var c := TransCompareOpt(e, false, No);
    var w := new Rewriter(OnQuestion(e));
    w.EliminateDups();
    r := w.root;
    forall env | TruthSymbolsOpt(e) && NegatesDefiniteOpt(e, env)
      ensures Eval(r, env) == OfBool(EvalOpt(e, env) != NO)
    {
      if e.Some? { TransCompareDecides(e.value, false, No, env); }
      TransformKeepsValue(c, env);
      assert Sharpens(Eval(Transform(c), env), Eval(r, env));
    }
  }

  predicate TruthSymbolsOpt(e: Option<Expr>) {
    e.Some? ==> TruthSymbols(e.value)
  }

  predicate NegatesDefiniteOpt(e: Option<Expr>, env: Env) {
    e.Some? ==> NegatesDefinite(e.value, env)
  }

  // ---------- which entries go below a symbol ----------

  /** dep is about the symbol, and n when that is n, or nothing has to be implied, or it cancels
      the question about the prompt away. */
  ghost predicate MustFollow(sym: Sym, visible: Option<Expr>, dep: Option<Expr>) {
    dep.Some? && Contains(dep.value, sym) &&
    (|| (exists p :: OnLeaf(And, dep.value, p) && NeedsSymbol(At(dep.value, p), sym))
     || visible.None?
     || (&& Settled(OnQuestion(visible)) && Settled(OnQuestion(dep))
         && IsYes(EliminateEq(OnQuestion(dep), OnQuestion(visible)).1)))
  }

  /** dep is about the symbol and cannot be on while the symbol, or the prompt, is off. */
  ghost predicate MayFollow(sym: Sym, visible: Option<Expr>, dep: Option<Expr>) {
    && dep.Some? && Contains(dep.value, sym)
    && (IsTri(sym) && TruthSymbolsOpt(visible) && TruthSymbols(dep.value) ==>
        || (forall env :: Eval(dep.value, env) != NO ==> TriOf(sym, env) != NO)
        || (forall env :: NegatesDefiniteOpt(visible, env) && NegatesDefinite(dep.value, env) ==>
              (Eval(dep.value, env) != NO ==> EvalOpt(visible, env) != NO)))
  }

  /** Without a condition nothing has to be implied. */
  lemma NothingToImply(test: Expr)
    ensures OnQuestion(None) == Symbol(Yes) && Settled(OnQuestion(None))
    ensures EliminateEq(test, Symbol(Yes)).1 == Symbol(Yes)
  {
    assert Transform(Symbol(No)) == Symbol(No);
    if test.Bin? { ConstIsKept(test.op, test, Symbol(Yes)); }
  }

  datatype Verdict = NotBelow | BelowByMention | BelowByImplication

  /** The decision about one entry after the symbol `sym` whose prompt has condition `visible`. */
  method SubmenuTest(sym: Sym, visible: Option<Expr>, dep: Option<Expr>) returns (v: Verdict)
    ensures if v == NotBelow then !MustFollow(sym, visible, dep) else MayFollow(sym, visible, dep)
    ensures dep.None? || !Contains(dep.value, sym) ==> v == NotBelow
    ensures v == BelowByMention <==> dep.Some? && Contains(dep.value, sym) && DependsOn(dep.value, sym)
    ensures v == BelowByMention && IsTri(sym) ==>
      forall env :: EvalOpt(dep, env) != NO ==> TriOf(sym, env) != NO
    ensures v == BelowByImplication && TruthSymbolsOpt(visible) && TruthSymbolsOpt(dep) ==>
      forall env :: NegatesDefiniteOpt(visible, env) && NegatesDefiniteOpt(dep, env) ==>
        (EvalOpt(dep, env) != NO ==> EvalOpt(visible, env) != NO)
    ensures Settled(OnQuestion(visible)) && Settled(OnQuestion(dep)) ==>
      (v == BelowByImplication <==>
         && dep.Some? && Contains(dep.value, sym) && !DependsOn(dep.value, sym)
         && IsYes(EliminateEq(OnQuestion(dep), OnQuestion(visible)).1))
  {
    if dep.None? || !Contains(dep.value, sym) { return NotBelow; }
    DependsOnOperand(dep.value, sym);
    if DependsOn(dep.value, sym) {
      forall env | IsTri(sym) && EvalOpt(dep, env) != NO
        ensures TriOf(sym, env) != NO
      {
        DependsImpliesOn(dep.value, sym, env);
      }
      return BelowByMention;
    }
    var base := OnTest(visible);
    var test := OnTest(dep);
    NothingToImply(test);
    if !IsYes(EliminateEq(test, base).1) { return NotBelow; }
    forall env | TruthSymbolsOpt(visible) && TruthSymbolsOpt(dep) && NegatesDefiniteOpt(visible, env) && NegatesDefiniteOpt(dep, env)
      ensures EvalOpt(dep, env) != NO ==> EvalOpt(visible, env) != NO
    {
      CancelledBaseIsImplied(test, base, env);
    }
    return BelowByImplication;
  }

  /** The compared conditions of the counterexample below. */
  lemma QuestionsCompared(a: Sym, s: Sym, t: Sym)
    requires TypeOf(a) == Tristate && TypeOf(s) == Tristate && TypeOf(t) == Tristate
    requires a != s && a != t && s != t
    ensures
      var visible := Equal(a, No);
      var dep := Bin(And, Not(Symbol(a)), Bin(Or, Symbol(s), Symbol(t)));
      && OnQuestion(Some(visible)) == visible
      && OnQuestion(Some(dep)) == Bin(And, visible, Bin(Or, Unequal(s, No), Unequal(t, No)))
      && IsYes(EliminateEq(OnQuestion(Some(dep)), OnQuestion(Some(visible))).1)
  {
    var either := Bin(Or, Symbol(s), Symbol(t));
    var dep := Bin(And, Not(Symbol(a)), either);
    var sn, tn, an := Equal(s, No), Equal(t, No), Equal(a, No);
    assert TransCompare(either, true, No) == Bin(And, sn, tn);
    assert TransCompare(Symbol(a), false, No) == Unequal(a, No);
    assert TransCompare(Not(Symbol(a)), true, No) == Unequal(a, No);
    var compared := Bin(Or, Unequal(a, No), Bin(And, sn, tn));
    assert TransCompare(dep, false, No) == Not(compared);
    assert Transform(Bin(And, sn, tn)) == Bin(And, sn, tn);
    assert Transform(compared) == compared;
    assert Transform(Not(Unequal(a, No))) == an;
    var pushed := Bin(Or, Unequal(s, No), Unequal(t, No));
    assert Transform(Bin(Or, Not(sn), Not(tn))) == pushed;
    assert Transform(Not(Bin(And, sn, tn))) == pushed;
    assert Transform(Not(compared)) == Bin(And, an, pushed);
    var yes := Symbol(Yes);
    assert EliminateEqIn(And, an, an) == (yes, yes);
    assert EliminateEqIn(And, pushed, yes) == (pushed, yes);
    assert EliminateEqIn(And, Bin(And, an, pushed), an) == (Bin(And, yes, pushed), yes);
  }

  lemma PairSettled(s: Sym, t: Sym)
    requires TypeOf(s) == Tristate && TypeOf(t) == Tristate && s != t
    ensures Settled(Bin(Or, Unequal(s, No), Unequal(t, No)))
  {
    hide Join, ExprCompare.ExprEq;
    var e := Bin(Or, Unequal(s, No), Unequal(t, No));
    assert s == Var(s.id, Tristate) && t == Var(t.id, Tristate);
    var env := Env(id => if id == s.id then YES else NO, _ => "");
    NamesDiffer(YES, NO);
    assert Eval(e.left, env) == YES && Eval(e.right, env) == NO;
    forall p, q | TwoLeaves(Or, e, p, q)
      ensures Join(Or, At(e, p), At(e, q)).None? && NoJoin(At(e, p))
    {
      TwoOperands(Or, e, p); TwoOperands(Or, e, q);
      CannotJoin(Or, At(e, p), At(e, q), env);
    }
    forall p, q | LeafAndNode(Or, e, p, q)
      ensures !Opposes(Or, At(e, p), At(e, q)) && NoOppose(At(e, p))
    {
      TwoOperands(Or, e, p);
    }
  }

  lemma QuestionSettled(a: Sym, s: Sym, t: Sym)
    requires TypeOf(a) == Tristate && TypeOf(s) == Tristate && TypeOf(t) == Tristate
    requires a != s && a != t && s != t
    ensures Settled(Bin(And, Equal(a, No), Bin(Or, Unequal(s, No), Unequal(t, No))))
  {
    hide Join, ExprCompare.ExprEq, Opposes;
    var e := Bin(And, Equal(a, No), Bin(Or, Unequal(s, No), Unequal(t, No)));
    assert a == Var(a.id, Tristate) && s == Var(s.id, Tristate) && t == Var(t.id, Tristate);
    var off, on := Env(_ => YES, _ => ""), Env(id => if id == a.id then NO else YES, _ => "");
    NamesDiffer(YES, NO);
    assert Eval(e.left, off) == NO && Eval(e.right, off) == YES;
    assert Eval(e.right.left, on) == YES && Eval(e.right, on) == YES;
    assert Eval(e.left, on) == YES && Eval(e, on) == Apply(And, Eval(e.left, on), Eval(e.right, on)) == YES;
    PairSettled(s, t);
    forall p, q | TwoLeaves(And, e, p, q)
      ensures Join(And, At(e, p), At(e, q)).None? && NoJoin(At(e, p))
    {
      TwoOperands(And, e, p); TwoOperands(And, e, q);
      CannotJoin(And, At(e, p), At(e, q), off);
    }
    forall p, q | LeafAndNode(And, e, p, q)
      ensures !Opposes(And, At(e, p), At(e, q)) && NoOppose(At(e, p))
    {
      TwoOperands(And, e, p); TwoOperands(And, e, q);
      if Opposes(And, At(e, p), At(e, q)) { OpposesDecides(And, At(e, p), At(e, q), on); }
    }
  }

  /** With an m below NOT the implication can fail: below a prompt with condition a=n, an entry
      that depends on !a && (s || t) passes the test, yet at a=m the entry can be on while the
      prompt is off. */
  method ImplicationNeedsDefinite(a: Sym, s: Sym, t: Sym, ghost env: Env)
    returns (visible: Expr, dep: Expr, v: Verdict)
    requires TypeOf(a) == Tristate && TypeOf(s) == Tristate && TypeOf(t) == Tristate
    requires a != s && a != t && s != t
    requires TriOf(a, env) == MOD && TriOf(s, env) == YES
    ensures visible == Equal(a, No) && dep == Bin(And, Not(Symbol(a)), Bin(Or, Symbol(s), Symbol(t)))
    ensures v == BelowByImplication && Eval(dep, env) != NO && Eval(visible, env) == NO
  {
    NamesDiffer(MOD, NO);
    visible := Equal(a, No);
    var either := Bin(Or, Symbol(s), Symbol(t));
    dep := Bin(And, Not(Symbol(a)), either);
    assert Eval(Symbol(s), env) == YES && Eval(Symbol(a), env) == MOD;
    assert Eval(Not(Symbol(a)), env) == MOD && Eval(either, env) == YES;
    assert Contains(Symbol(s), s) && Contains(either, s);
    assert either.op != And && !DependsOn(either, s) && !DependsOn(dep.left, s);
    assert Contains(dep, s) && !DependsOn(dep, s);
    QuestionsCompared(a, s, t);
    QuestionSettled(a, s, t);
    v := SubmenuTest(s, Some(visible), Some(dep));
  }
}
