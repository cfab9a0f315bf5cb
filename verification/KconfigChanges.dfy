/** What a change of user values can reach in support/scripts/kconfiglib.py: the dependent symbols of
    Symbol._get_dependent are enough, unless the symbol is MODULES. */
module KconfigChanges {
  import opened Tristates
  import opened Wrappers
  import opened ExprParser
  import opened KconfigValues
  import E = Expressions

  // ---------- dependents ----------

  /** Symbol.dep, as _build_dep fills it */
  ghost function Dep(k: Kconf, n: string): set<string> {
    set s | s in k.syms && n in Reads(k, k.syms[s])
  }

  predicate Sibling(k: Kconf, s: string, t: string) {
    s in k.syms && t in k.syms && s != t && k.syms[s].choice.Some? && k.syms[t].choice == k.syms[s].choice
  }

  ghost function Siblings(k: Kconf, s: string): set<string> {
    set t | t in k.syms && Sibling(k, s, t)
  }

  /** _add_dependent_ignore_siblings */
  ghost function AddIgnoring(k: Kconf, n: string): set<string>
    requires Ordered(k) && n in k.syms
    decreases k.top - k.rank(n), 1
  {
    assert SymOrdered(k, n);
    Dep(k, n) + (set t, x | t in Dep(k, n) && x in DependentsAbove(k, n, t) :: x)
  }

  ghost function DependentsAbove(k: Kconf, n: string, t: string): set<string>
    requires Ordered(k) && n in k.syms && t in Dep(k, n)
    decreases k.top - k.rank(n), 0
  {
    assert SymOrdered(k, t) && SymOrdered(k, n);
    Dependents(k, t)
  }

  /** _get_dependent */
  ghost function Dependents(k: Kconf, n: string): set<string>
    requires Ordered(k) && n in k.syms
    decreases k.top - k.rank(n), 3
  {
    AddIgnoring(k, n) + Siblings(k, n) + (set t, x | t in Siblings(k, n) && x in AddSibling(k, n, t) :: x)
  }

  ghost function AddSibling(k: Kconf, n: string, t: string): set<string>
    requires Ordered(k) && n in k.syms && t in Siblings(k, n)
    decreases k.top - k.rank(n), 2
  {
    assert SymOrdered(k, t) && SymOrdered(k, n);
    AddIgnoring(k, t)
  }

  /** Everything the change of n can reach. */
  ghost function Reach(k: Kconf, n: string): set<string>
    requires Ordered(k) && n in k.syms
  {
    {n} + Dependents(k, n)
  }

  /** With a symbol the set contains the symbols that read it and those in the same choice. */
  ghost predicate Closed(k: Kconf, a: set<string>) {
    forall s, t :: s in a && (t in Dep(k, s) || t in Siblings(k, s)) ==> t in a
  }

  lemma {:induction false} DependentsGoOn(k: Kconf, n: string, s: string, t: string)
    requires Ordered(k) && n in k.syms && s in Reach(k, n) && (t in Dep(k, s) || t in Siblings(k, s))
    ensures t in Reach(k, n)
    decreases k.top - k.rank(n), 1
  {
    hide Ordered, Reads, AddIgnoring;
    if s == n {
      assert t in Dep(k, n) ==> t in AddIgnoring(k, n) by { DepIsIgnoring(k, n); }
    } else if s in AddIgnoring(k, n) {
      IgnoringGoOn(k, n, s, t);
    } else if s in Siblings(k, n) {
      SiblingRank(k, n, s);
      DepIsIgnoring(k, s);
      assert t in Dep(k, s) ==> t in AddSibling(k, n, s);
    } else {
      var m :| m in Siblings(k, n) && s in AddSibling(k, n, m);
      SiblingRank(k, n, m);
      IgnoringGoOn(k, m, s, t);
      assert t in AddSibling(k, n, m);
    }
  }

  lemma DepIsIgnoring(k: Kconf, n: string)
    requires Ordered(k) && n in k.syms
    ensures Dep(k, n) <= AddIgnoring(k, n)
  {
  }

  lemma SiblingRank(k: Kconf, n: string, m: string)
    requires Ordered(k) && n in k.syms && m in Siblings(k, n)
    ensures m in k.syms && k.rank(m) == k.rank(n) && AddSibling(k, n, m) == AddIgnoring(k, m)
  {
    assert SymOrdered(k, n) && SymOrdered(k, m);
  }

  lemma {:induction false} IgnoringGoOn(k: Kconf, n: string, s: string, t: string)
    requires Ordered(k) && n in k.syms && s in AddIgnoring(k, n) && (t in Dep(k, s) || t in Siblings(k, s))
    ensures t in AddIgnoring(k, n)
    decreases k.top - k.rank(n), 0
  {
    hide Ordered, Reads, Dep;
    var m: string;
    if s in Dep(k, n) {
      m := s;
    } else {
      m :| m in Dep(k, n) && s in DependentsAbove(k, n, m);
    }
    AboveIs(k, n, m);
    DependentsGoOn(k, m, s, t);
    assert t in {m} + DependentsAbove(k, n, m);
  }

  lemma AboveIs(k: Kconf, n: string, m: string)
    requires Ordered(k) && n in k.syms && m in Dep(k, n)
    ensures m in k.syms && k.rank(n) < k.rank(m) <= k.top && DependentsAbove(k, n, m) == Dependents(k, m)
  {
    assert SymOrdered(k, m);
  }

  lemma ReachIsClosed(k: Kconf, n: string)
    requires Ordered(k) && n in k.syms
    ensures Closed(k, Reach(k, n))
  {
    hide Ordered, Reach, Dep, Siblings;
    forall s, t | s in Reach(k, n) && (t in Dep(k, s) || t in Siblings(k, s))
      ensures t in Reach(k, n)
    {
      DependentsGoOn(k, n, s, t);
    }
  }

  // ---------- values that stay ----------

  /** No smaller set will do: what is closed and has the symbol has all dependents. */
  lemma {:induction false} DependentsAreLeast(k: Kconf, n: string, a: set<string>)
    requires Ordered(k) && n in k.syms && n in a && Closed(k, a)
    ensures Reach(k, n) <= a
    decreases k.top - k.rank(n), 3
  {
    hide Ordered, Reads, AddIgnoring;
    IgnoringIsLeast(k, n, a);
    forall t, x | t in Siblings(k, n) && x in AddSibling(k, n, t)
      ensures x in a
    {
      SiblingRank(k, n, t);
      assert t in a;
      IgnoringIsLeast(k, t, a);
    }
  }

  lemma {:induction false} IgnoringIsLeast(k: Kconf, n: string, a: set<string>)
    requires Ordered(k) && n in k.syms && n in a && Closed(k, a)
    ensures AddIgnoring(k, n) <= a
    decreases k.top - k.rank(n), 1
  {
    hide Ordered, Reads, Dep, Siblings, Dependents;
    forall t | t in Dep(k, n)
      ensures t in a && DependentsAbove(k, n, t) <= a
    {
      AboveIs(k, n, t);
      DependentsAreLeast(k, t, a);
    }
  }

  lemma {:induction false} ValueAgrees(e: Tree, v: Valuation, w: Valuation)
    requires forall n :: n in Names(e) ==> v.tri(n) == w.tri(n) && v.str(n) == w.str(n)
    ensures Value(e, v) == Value(e, w)
    decreases e
  {
    match e
    case Neg(x) => ValueAgrees(x, v, w);
    case List(op, args) => ValuesAgree(op, args, v, w);
    case _ =>
  }

  lemma {:induction false} ValuesAgree(op: Op, args: seq<Tree>, v: Valuation, w: Valuation)
    requires forall n :: n in AllNames(args) ==> v.tri(n) == w.tri(n) && v.str(n) == w.str(n)
    ensures Values(op, args, v) == Values(op, args, w)
    decreases args
  {
    if args != [] {
      ValueAgrees(args[0], v, w);
      ValuesAgree(op, args[1..], v, w);
    }
  }

  predicate SameUser<K, V(==)>(a: map<K, V>, b: map<K, V>, x: K) {
    (x in a <==> x in b) && (x in a ==> a[x] == b[x])
  }

  /** Only symbols in a and choices of such symbols have other user values. */
  ghost predicate SameOutside(k: Kconf, u: Users, v: Users, a: set<string>) {
    && (forall s :: s in k.syms && s !in a ==> SameUser(u.val, v.val, s))
    && (forall c: nat :: c < |k.choices| && (exists m :: m in k.choices[c].members && m !in a) ==>
          SameUser(u.selected, v.selected, c) && SameUser(u.mode, v.mode, c))
  }

  // ---------- where no m takes part ----------

  /** The expression does not mention m. */
  predicate WithoutM(e: Tree)
    decreases e
  {
    match e
    case Leaf(o) => o != M && o != Str("m")
    case Neg(x) => WithoutM(x)
    case List(_, args) => AllWithoutM(args)
    case Rel(_, _, _) => true
  }

  predicate AllWithoutM(args: seq<Tree>)
    decreases args
  {
    args == [] || (WithoutM(args[0]) && AllWithoutM(args[1..]))
  }

  predicate WithoutMOpt(e: Option<Tree>) {
    e.Some? ==> WithoutM(e.value)
  }

  predicate ConditionsWithoutM(es: seq<Option<Tree>>) {
    forall p :: p in es ==> WithoutMOpt(p)
  }

  predicate DefaultsWithoutM(ds: seq<Default>) {
    forall x :: x in ds ==> WithoutM(x.value) && WithoutMOpt(x.cond)
  }

  predicate RangesWithoutM(rs: seq<Range>) {
    forall x :: x in rs ==> WithoutMOpt(x.cond)
  }

  /** A symbol that is not tristate and whose definition does not mention m. */
  predicate SymWithoutM(d: SymDef) {
    && d.typ != E.Tristate && d.fixed != Some("m")
    && ConditionsWithoutM(d.prompts) && DefaultsWithoutM(d.defaults) && WithoutM(d.rev) && RangesWithoutM(d.ranges)
  }

  predicate ChoiceWithoutM(d: ChoiceDef) {
    d.typ == E.Boolean && ConditionsWithoutM(d.prompts) && forall p :: p in d.picks ==> WithoutMOpt(p.cond)
  }

  /** No m takes part in the evaluation of symbols outside a. */
  predicate MeetsNoM(k: Kconf, a: set<string>) {
    && (forall s :: s in k.syms && s !in a ==> SymWithoutM(k.syms[s]))
    && (forall c :: 0 <= c < |k.choices| && (exists m :: m in k.choices[c].members && m !in a) ==> ChoiceWithoutM(k.choices[c]))
  }

  lemma {:induction false} ValueWithoutM(k: Kconf, u: Users, a: set<string>, e: Tree, bound: nat)
    requires Ordered(k) && UsersFit(k, u) && MeetsNoM(k, a) && WithoutM(e) && Names(e) !! a
    ensures Value(e, Look(k, u, bound)) != MOD
    decreases e
  {
    hide Ordered, UsersFit, MeetsNoM, Look;
    match e
    case Leaf(o) => if o.Sym? { SeenWithoutM(k, u, a, o.name, bound); }
    case Neg(x) => ValueWithoutM(k, u, a, x, bound);
    case List(op, args) => ValuesWithoutM(k, u, a, op, args, bound);
    case _ =>
  }

  lemma {:induction false} ValuesWithoutM(k: Kconf, u: Users, a: set<string>, op: Op, args: seq<Tree>, bound: nat)
    requires Ordered(k) && UsersFit(k, u) && MeetsNoM(k, a) && AllWithoutM(args) && AllNames(args) !! a
    ensures Values(op, args, Look(k, u, bound)) != MOD
    decreases args
  {
    hide Ordered, UsersFit, MeetsNoM, Look;
    if args != [] {
      ValueWithoutM(k, u, a, args[0], bound);
      ValuesWithoutM(k, u, a, op, args[1..], bound);
    }
  }

  lemma SeenWithoutM(k: Kconf, u: Users, a: set<string>, n: string, bound: nat)
    requires Ordered(k) && UsersFit(k, u) && MeetsNoM(k, a) && n !in a
    ensures Look(k, u, bound).tri(n) != MOD
  {
    if n in k.syms && k.rank(n) < bound && TriType(k.syms[n].typ) {
      assert SymWithoutM(k.syms[n]);
      hide Ordered, UsersFit, MeetsNoM, SymWithoutM;
      if k.syms[n].fixed.None? { BooleanValue(k, u, n); } else { FixedValue(k, u, n); }
    }
  }

  lemma FixedValue(k: Kconf, u: Users, n: string)
    requires Ordered(k) && UsersFit(k, u) && n in k.syms && k.syms[n].fixed.Some?
    ensures Val(k, u, n) == k.syms[n].fixed.value
  {
  }

  lemma EvalWithoutM(k: Kconf, u: Users, a: set<string>, e: Option<Tree>, bound: nat)
    requires Ordered(k) && UsersFit(k, u) && MeetsNoM(k, a) && WithoutMOpt(e) && NamesOpt(e) !! a
    ensures Eval(k, u, e, bound) != MOD
  {
    hide Ordered, UsersFit, MeetsNoM, Look, HasModules;
    if e.Some? { ValueWithoutM(k, u, a, e.value, bound); }
  }

  lemma {:induction false} StrongestWithoutM(k: Kconf, u: Users, a: set<string>, es: seq<Option<Tree>>, n: nat, bound: nat)
    requires Ordered(k) && UsersFit(k, u) && MeetsNoM(k, a) && ConditionsWithoutM(es) && ConditionNames(es) !! a && n <= |es|
    ensures Strongest(k, u, es[..n], bound) != MOD
    decreases n
  {
    hide Ordered, UsersFit, MeetsNoM, Eval, HasModules, ConditionNames;
    if n > 0 {
      assert es[..n][..n - 1] == es[..n - 1] && es[n - 1] in es;
      StrongestWithoutM(k, u, a, es, n - 1, bound);
      ConditionAt(es, n - 1);
      EvalWithoutM(k, u, a, es[n - 1], bound);
    }
  }

  // ---------- comparing two evaluations ----------

  /** There are modules as before, or it does not matter outside a. */
  ghost predicate SameModules(k: Kconf, u: Users, v: Users, a: set<string>)
    requires Ordered(k) && UsersFit(k, u) && UsersFit(k, v)
  {
    HasModules(k, u) == HasModules(k, v) || MeetsNoM(k, a)
  }

  /** It would matter, but not outside a. */
  ghost predicate Mixed(k: Kconf, u: Users, v: Users, a: set<string>) {
    Ordered(k) && UsersFit(k, u) && UsersFit(k, v) && HasModules(k, u) != HasModules(k, v) && MeetsNoM(k, a)
  }

  /** Everything a comparison of two evaluations needs. */
  ghost predicate Comparable(k: Kconf, u: Users, v: Users, a: set<string>) {
    && Ordered(k) && UsersFit(k, u) && UsersFit(k, v) && SameOutside(k, u, v, a) && Closed(k, a)
    && ("MODULES" !in a || SameModules(k, u, v, a))
  }

  /** Readers at rank bound that avoid a see the same. */
  ghost predicate SameLook(k: Kconf, u: Users, v: Users, a: set<string>, bound: nat)
    requires Ordered(k) && UsersFit(k, u) && UsersFit(k, v)
  {
    && (bound > 0 ==> SameModules(k, u, v, a))
    && forall n :: n in k.syms && k.rank(n) < bound && n !in a ==> Val(k, u, n) == Val(k, v, n)
  }

  lemma EvalSame(k: Kconf, u: Users, v: Users, a: set<string>, e: Option<Tree>, bound: nat)
    requires Comparable(k, u, v, a) && SameLook(k, u, v, a, bound) && NamesOpt(e) !! a
    requires Mixed(k, u, v, a) ==> WithoutMOpt(e)
    ensures Eval(k, u, e, bound) == Eval(k, v, e, bound)
    ensures Mixed(k, u, v, a) ==> Eval(k, u, e, bound) != MOD
  {
    if Mixed(k, u, v, a) {
      EvalWithoutM(k, u, a, e, bound);
      if e.Some? { ValueWithoutM(k, u, a, e.value, bound); }
    }
    hide MeetsNoM, WithoutM, HasModules;
    if e.Some? {
      forall n | n in Names(e.value)
        ensures Look(k, u, bound).tri(n) == Look(k, v, bound).tri(n) && Look(k, u, bound).str(n) == Look(k, v, bound).str(n)
      {
        NameSame(k, u, v, a, n, bound);
      }
      ValueAgrees(e.value, Look(k, u, bound), Look(k, v, bound));
    }
  }

  lemma NameSame(k: Kconf, u: Users, v: Users, a: set<string>, n: string, bound: nat)
    requires Comparable(k, u, v, a) && SameLook(k, u, v, a, bound) && n !in a
    ensures SeenTri(k, u, n, bound) == SeenTri(k, v, n, bound) && SeenText(k, u, n, bound) == SeenText(k, v, n, bound)
  {
  }

  lemma UpSame(k: Kconf, u: Users, v: Users, a: set<string>, t: Tri, bound: nat)
    requires Comparable(k, u, v, a) && SameLook(k, u, v, a, bound) && (Mixed(k, u, v, a) ==> t != MOD)
    ensures Up(k, u, t, bound) == Up(k, v, t, bound) && (Mixed(k, u, v, a) ==> Up(k, u, t, bound) == t)
  {
  }

  lemma TextSame(k: Kconf, u: Users, v: Users, a: set<string>, e: Tree, bound: nat)
    requires Comparable(k, u, v, a) && SameLook(k, u, v, a, bound) && Names(e) !! a
    ensures TextOf(k, u, e, bound) == TextOf(k, v, e, bound)
  {
    if e.Leaf? && e.operand.Sym? { NameSame(k, u, v, a, e.operand.name, bound); }
    ComparableFits(k, u, v, a);
    hide Comparable, SameLook, Ordered, UsersFit, SeenTri, SeenText;
  }

  lemma {:induction false} ConditionAt(es: seq<Option<Tree>>, i: nat)
    requires i < |es|
    ensures NamesOpt(es[i]) <= ConditionNames(es)
  {
    if i > 0 { ConditionAt(es[1..], i - 1); }
  }

  lemma {:induction false} DefaultAt(ds: seq<Default>, i: nat)
    requires i < |ds|
    ensures Names(ds[i].value) <= DefaultNames(ds) && NamesOpt(ds[i].cond) <= DefaultNames(ds)
  {
    if i > 0 { DefaultAt(ds[1..], i - 1); }
  }

  lemma {:induction false} RangeAt(rs: seq<Range>, i: nat)
    requires i < |rs|
    ensures OperandNames(rs[i].low) + OperandNames(rs[i].high) + NamesOpt(rs[i].cond) <= RangeNames(rs)
  {
    if i > 0 { RangeAt(rs[1..], i - 1); }
  }

  lemma {:induction false} PickAt(ps: seq<Pick>, i: nat)
    requires i < |ps|
    ensures NamesOpt(ps[i].cond) <= PickNames(ps)
  {
    if i > 0 { PickAt(ps[1..], i - 1); }
  }

  lemma {:induction false} StrongestSame(k: Kconf, u: Users, v: Users, a: set<string>, es: seq<Option<Tree>>, n: nat, bound: nat)
    requires Comparable(k, u, v, a) && SameLook(k, u, v, a, bound) && ConditionNames(es) !! a && n <= |es|
    requires Mixed(k, u, v, a) ==> ConditionsWithoutM(es)
    ensures Strongest(k, u, es[..n], bound) == Strongest(k, v, es[..n], bound)
    ensures Mixed(k, u, v, a) ==> Strongest(k, u, es[..n], bound) != MOD
    decreases n
  {
    hide Comparable, SameLook, Eval, Up, ConditionNames, Mixed, Names, Ordered, UsersFit;
    ComparableFits(k, u, v, a);
    if n > 0 {
      assert es[..n][..n - 1] == es[..n - 1] && es[n - 1] in es;
      StrongestSame(k, u, v, a, es, n - 1, bound);
      ConditionAt(es, n - 1);
      EvalSame(k, u, v, a, es[n - 1], bound);
      UpSame(k, u, v, a, Strongest(k, u, es[..n - 1], bound), bound);
    }
  }

  lemma ComparableFits(k: Kconf, u: Users, v: Users, a: set<string>)
    requires Comparable(k, u, v, a)
    ensures Ordered(k) && UsersFit(k, u) && UsersFit(k, v)
  {
  }

  lemma {:induction false} ActiveSame(k: Kconf, u: Users, v: Users, a: set<string>, ds: seq<Default>, i: nat, bound: nat)
    requires Comparable(k, u, v, a) && SameLook(k, u, v, a, bound) && DefaultNames(ds) !! a
    requires Mixed(k, u, v, a) ==> DefaultsWithoutM(ds)
    ensures Active(k, u, ds, i, bound) == Active(k, v, ds, i, bound)
    decreases |ds| - i
  {
    hide Mixed, Comparable, SameLook, Eval, DefaultNames, Names, Ordered, UsersFit;
    ComparableFits(k, u, v, a);
    if i < |ds| {
      DefaultAt(ds, i);
      assert ds[i] in ds;
      EvalSame(k, u, v, a, ds[i].cond, bound);
      ActiveSame(k, u, v, a, ds, i + 1, bound);
    }
  }

  lemma {:induction false} BoundsSame(k: Kconf, u: Users, v: Users, a: set<string>, d: SymDef, i: nat, bound: nat)
    requires Comparable(k, u, v, a) && SameLook(k, u, v, a, bound) && RangeNames(d.ranges) !! a
    requires Mixed(k, u, v, a) ==> RangesWithoutM(d.ranges)
    ensures Bounds(k, u, d.typ, d.ranges, i, bound) == Bounds(k, v, d.typ, d.ranges, i, bound)
    decreases |d.ranges| - i
  {
    hide Mixed, Comparable, SameLook, Eval, TextOf, Ordered, UsersFit, RangeNames;
    ComparableFits(k, u, v, a);
    if i < |d.ranges| {
      var r := d.ranges[i];
      RangeAt(d.ranges, i);
      assert d.ranges[i] in d.ranges;
      EvalSame(k, u, v, a, r.cond, bound);
      TextSame(k, u, v, a, Leaf(r.low), bound);
      TextSame(k, u, v, a, Leaf(r.high), bound);
      BoundsSame(k, u, v, a, d, i + 1, bound);
    }
  }

  lemma {:induction false} NumericDefaultSame(k: Kconf, u: Users, v: Users, a: set<string>, d: SymDef,
                                              range: Option<(int, int)>, i: nat, text: string, bound: nat)
    requires Comparable(k, u, v, a) && SameLook(k, u, v, a, bound) && DefaultNames(d.defaults) !! a
    requires Mixed(k, u, v, a) ==> DefaultsWithoutM(d.defaults)
    ensures NumericDefault(k, u, d, range, i, text, bound) == NumericDefault(k, v, d, range, i, text, bound)
    decreases |d.defaults| - i
  {
    hide Mixed, Comparable, SameLook, Eval, TextOf, DefaultNames, Names, Ordered, UsersFit;
    ComparableFits(k, u, v, a);
    if i < |d.defaults| {
      DefaultAt(d.defaults, i);
      assert d.defaults[i] in d.defaults;
      EvalSame(k, u, v, a, d.defaults[i].cond, bound);
      TextSame(k, u, v, a, d.defaults[i].value, bound);
      NumericDefaultSame(k, u, v, a, d, range, i + 1, text, bound);
      NumericDefaultSame(k, u, v, a, d, range, i + 1, TextOf(k, u, d.defaults[i].value, bound), bound);
    }
  }

  /** The choice has members, and none of them is in a. */
  ghost predicate Away(k: Kconf, a: set<string>, c: nat) {
    c < |k.choices| && k.choices[c].members != [] && forall m :: m in k.choices[c].members ==> m !in a
  }

  lemma ReadsAway(k: Kconf, a: set<string>, s: string)
    requires Closed(k, a) && s in k.syms && s !in a
    ensures Reads(k, k.syms[s]) !! a
  {
    forall n | n in Reads(k, k.syms[s])
      ensures n !in a
    {
      assert s in Dep(k, n);
    }
  }

  lemma ChoiceIsAway(k: Kconf, u: Users, v: Users, a: set<string>, c: nat, m: string)
    requires Comparable(k, u, v, a) && c < |k.choices| && m in k.choices[c].members && m !in a
    ensures Away(k, a, c) && ChoiceReads(k.choices[c]) !! a
    ensures SameUser(u.selected, v.selected, c) && SameUser(u.mode, v.mode, c)
    ensures Mixed(k, u, v, a) ==> ChoiceWithoutM(k.choices[c])
  {
    assert ChoiceOrdered(k, c);
    ReadsAway(k, a, m);
    assert ChoiceReads(k.choices[c]) <= Reads(k, k.syms[m]);
    forall o | o in k.choices[c].members
      ensures o !in a
    {
      assert o == m || m in Siblings(k, o);
    }
  }

  lemma ChoiceVisSame(k: Kconf, u: Users, v: Users, a: set<string>, c: nat)
    requires Comparable(k, u, v, a) && Away(k, a, c) && SameLook(k, u, v, a, k.choiceRank(c))
    ensures ChoiceVis(k, u, c) == ChoiceVis(k, v, c) && Mode(k, u, c) == Mode(k, v, c)
    ensures Mixed(k, u, v, a) ==> ChoiceVis(k, u, c) != MOD
  {
    hide Strongest, SameLook, Mixed, ConditionsWithoutM;
    var es, r := k.choices[c].prompts, k.choiceRank(c);
    ChoiceIsAway(k, u, v, a, c, k.choices[c].members[0]);
    StrongestSame(k, u, v, a, es, |es|, r);
    assert es[..|es|] == es;
    UpSame(k, u, v, a, ChoiceVis(k, u, c), r);
    ComparableFits(k, u, v, a);
    hide Comparable;
    if Mixed(k, u, v, a) {
      BooleanMode(k, u, c);
      BooleanMode(k, v, c);
    } else {
      UpSame(k, u, v, a, if c in u.mode then u.mode[c] else if k.choices[c].optional then NO else MOD, r);
    }
  }

  lemma BooleanMode(k: Kconf, u: Users, c: nat)
    requires Ordered(k) && UsersFit(k, u) && c < |k.choices| && k.choices[c].typ == E.Boolean
    ensures ChoiceVis(k, u, c) != MOD
    ensures var t := if c in u.mode then u.mode[c] else if k.choices[c].optional then NO else MOD;
      Mode(k, u, c) == if t == NO then NO else ChoiceVis(k, u, c)
  {
    hide Strongest, HasModules;
  }

  lemma SymVisSame(k: Kconf, u: Users, v: Users, a: set<string>, s: string)
    requires Comparable(k, u, v, a) && s in k.syms && s !in a && SameLook(k, u, v, a, k.rank(s))
    ensures SymVis(k, u, s) == SymVis(k, v, s)
    ensures Mixed(k, u, v, a) ==> SymVis(k, u, s) != MOD
  {
    var d, r := k.syms[s], k.rank(s);
    assert SymOrdered(k, s);
    UserStays(k, u, v, a, s);
    SymVisIs(k, u, s);
    SymVisIs(k, v, s);
    ComparableFits(k, u, v, a);
    hide Strongest, SameLook, Mixed, Comparable, SymVis, ConditionsWithoutM, Up;
    StrongestSame(k, u, v, a, d.prompts, |d.prompts|, r);
    assert d.prompts[..|d.prompts|] == d.prompts;
    UpSame(k, u, v, a, Strongest(k, u, d.prompts, r), r);
    if d.choice.Some? {
      ChoiceIsAway(k, u, v, a, d.choice.value, s);
      ChoiceVisSame(k, u, v, a, d.choice.value);
      UpSame(k, u, v, a, ChoiceVis(k, u, d.choice.value), r);
    }
  }

  lemma SymVisIs(k: Kconf, u: Users, s: string)
    requires Ordered(k) && UsersFit(k, u) && s in k.syms && SymOrdered(k, s)
    ensures var d, r := k.syms[s], k.rank(s);
      var t := Strongest(k, u, d.prompts, r);
      SymVis(k, u, s) ==
        Capped(if d.choice.Some? then Min(Up(k, u, t, r), Up(k, u, ChoiceVis(k, u, d.choice.value), r)) else t, d.typ)
  {
    hide Strongest, ChoiceVis, Up;
  }

  lemma MemberVisSame(k: Kconf, u: Users, v: Users, a: set<string>, c: nat, m: string)
    requires Comparable(k, u, v, a) && Away(k, a, c) && SameLook(k, u, v, a, k.choiceRank(c)) && m in k.choices[c].members
    ensures m in k.syms && SymVis(k, u, m) == SymVis(k, v, m)
  {
    hide SameLook;
    assert ChoiceOrdered(k, c) && SymOrdered(k, m);
    SymVisSame(k, u, v, a, m);
  }

  lemma {:induction false} FirstSeenSame(k: Kconf, u: Users, v: Users, a: set<string>, c: nat, i: nat)
    requires Comparable(k, u, v, a) && Away(k, a, c) && SameLook(k, u, v, a, k.choiceRank(c))
    ensures FirstSeen(k, u, c, i) == FirstSeen(k, v, c, i)
    decreases |k.choices[c].members| - i
  {
    hide Comparable, SameLook, SymVis, Ordered, SymOrdered, ChoiceOrdered;
    ComparableFits(k, u, v, a);
    if i < |k.choices[c].members| {
      MemberVisSame(k, u, v, a, c, k.choices[c].members[i]);
      FirstSeenSame(k, u, v, a, c, i + 1);
    }
  }

  lemma {:induction false} ChosenSame(k: Kconf, u: Users, v: Users, a: set<string>, c: nat, i: nat)
    requires Comparable(k, u, v, a) && Away(k, a, c) && SameLook(k, u, v, a, k.choiceRank(c))
    ensures Chosen(k, u, c, i) == Chosen(k, v, c, i)
    decreases |k.choices[c].picks| - i
  {
    hide Mixed, Comparable, SameLook, Eval;
    ComparableFits(k, u, v, a);
    if i < |k.choices[c].picks| {
      ChoiceIsAway(k, u, v, a, c, k.choices[c].members[0]);
      PickAt(k.choices[c].picks, i);
      assert k.choices[c].picks[i] in k.choices[c].picks;
      EvalSame(k, u, v, a, k.choices[c].picks[i].cond, k.choiceRank(c));
      ChosenSame(k, u, v, a, c, i + 1);
    }
  }

  lemma SelectionSame(k: Kconf, u: Users, v: Users, a: set<string>, c: nat)
    requires Comparable(k, u, v, a) && Away(k, a, c) && SameLook(k, u, v, a, k.choiceRank(c))
    ensures Selection(k, u, c) == Selection(k, v, c)
  {
    ChoiceVisSame(k, u, v, a, c);
    ChoiceIsAway(k, u, v, a, c, k.choices[c].members[0]);
    if c in u.selected {
      SelectedIsMember(k, u, c);
      MemberVisSame(k, u, v, a, c, u.selected[c]);
    }
    FromDefaultsSame(k, u, v, a, c);
    ComparableFits(k, u, v, a);
    hide SameLook, SymVis, FromDefaults, Mode, Comparable, Ordered, UsersFit, Away;
  }

  lemma SelectedIsMember(k: Kconf, u: Users, c: nat)
    requires UsersFit(k, u) && c in u.selected
    ensures c < |k.choices| && u.selected[c] in k.choices[c].members
  {
  }

  lemma FromDefaultsSame(k: Kconf, u: Users, v: Users, a: set<string>, c: nat)
    requires Comparable(k, u, v, a) && Away(k, a, c) && SameLook(k, u, v, a, k.choiceRank(c))
    ensures FromDefaults(k, u, c) == FromDefaults(k, v, c)
  {
    hide SameLook, SymVis, FirstSeen, Chosen, Comparable, Ordered, UsersFit;
    ComparableFits(k, u, v, a);
    ChosenSame(k, u, v, a, c, 0);
    MemberVisSame(k, u, v, a, c, Chosen(k, u, c, 0));
    FirstSeenSame(k, u, v, a, c, 0);
  }

  lemma DefaultTriSame(k: Kconf, u: Users, v: Users, a: set<string>, ds: seq<Default>, r: nat)
    requires Comparable(k, u, v, a) && SameLook(k, u, v, a, r) && DefaultNames(ds) !! a
    requires Mixed(k, u, v, a) ==> DefaultsWithoutM(ds)
    ensures DefaultTri(k, u, ds, r) == DefaultTri(k, v, ds, r)
    ensures Mixed(k, u, v, a) ==> DefaultTri(k, u, ds, r) != MOD
  {
    hide Mixed, SameLook, Eval, Active, Up, Comparable, DefaultNames;
    ComparableFits(k, u, v, a);
    ActiveSame(k, u, v, a, ds, 0, r);
    var i := Active(k, u, ds, 0, r);
    if i.Some? {
      DefaultAt(ds, i.value);
      assert ds[i.value] in ds;
      EvalSame(k, u, v, a, ds[i.value].cond, r);
      EvalSame(k, u, v, a, Some(ds[i.value].value), r);
      UpSame(k, u, v, a, Eval(k, u, ds[i.value].cond, r), r);
    }
  }

  lemma PlainTriSame(k: Kconf, u: Users, v: Users, a: set<string>, s: string, vis: Tri)
    requires Comparable(k, u, v, a) && s in k.syms && s !in a && SameLook(k, u, v, a, k.rank(s))
    requires TriType(k.syms[s].typ) && (Mixed(k, u, v, a) ==> vis != MOD)
    ensures PlainTri(k, u, s, vis) == PlainTri(k, v, s, vis)
  {
    hide Mixed, SameLook, Eval, DefaultTri, Up, Comparable, Ordered, UsersFit, Names;
    var d, r := k.syms[s], k.rank(s);
    ComparableFits(k, u, v, a);
    UserStays(k, u, v, a, s);
    DefaultTriSame(k, u, v, a, d.defaults, r);
    EvalSame(k, u, v, a, Some(d.rev), r);
    if s in u.val {
      UserIsName(k, u, s);
      UpSame(k, u, v, a, TriOfName(u.val[s]), r);
    }
    UpSame(k, u, v, a, vis, r);
    UpSame(k, u, v, a, Eval(k, u, Some(d.rev), r), r);
    UpSame(k, u, v, a, OwnTri(k, u, s, vis), r);
  }

  lemma UserIsName(k: Kconf, u: Users, s: string)
    requires UsersFit(k, u) && s in u.val
    ensures s in k.syms && (k.syms[s].typ == E.Boolean ==> TriOfName(u.val[s]) != MOD)
  {
  }

  lemma UserStays(k: Kconf, u: Users, v: Users, a: set<string>, s: string)
    requires Comparable(k, u, v, a) && s in k.syms && s !in a
    ensures SameUser(u.val, v.val, s) && Reads(k, k.syms[s]) !! a
    ensures Mixed(k, u, v, a) ==> SymWithoutM(k.syms[s])
  {
    ReadsAway(k, a, s);
  }

  lemma TriValueSame(k: Kconf, u: Users, v: Users, a: set<string>, s: string)
    requires Comparable(k, u, v, a) && s in k.syms && s !in a && SameLook(k, u, v, a, k.rank(s))
    requires TriType(k.syms[s].typ)
    ensures TriValue(k, u, s) == TriValue(k, v, s)
  {
    hide Mixed, SameLook, SymVis, Mode, Selection, PlainTri, Reads;
    var d := k.syms[s];
    assert SymOrdered(k, s);
    SymVisSame(k, u, v, a, s);
    PlainTriSame(k, u, v, a, s, SymVis(k, u, s));
    if d.choice.Some? {
      ChoiceIsAway(k, u, v, a, d.choice.value, s);
      ChoiceVisSame(k, u, v, a, d.choice.value);
      SelectionSame(k, u, v, a, d.choice.value);
    }
  }

  lemma TextsSame(k: Kconf, u: Users, v: Users, a: set<string>, s: string)
    requires Comparable(k, u, v, a) && s in k.syms && s !in a && SameLook(k, u, v, a, k.rank(s))
    ensures StringText(k, u, s) == StringText(k, v, s) && NumericText(k, u, s) == NumericText(k, v, s)
  {
    hide Mixed, SameLook, SymVis, Eval, Active, Bounds, NumericDefault, TextOf, Comparable, Ordered, UsersFit, RangeNames, DefaultNames, Names;
    var d, r := k.syms[s], k.rank(s);
    ComparableFits(k, u, v, a);
    UserStays(k, u, v, a, s);
    SymVisSame(k, u, v, a, s);
    ActiveSame(k, u, v, a, d.defaults, 0, r);
    var i := Active(k, u, d.defaults, 0, r);
    if i.Some? {
      DefaultAt(d.defaults, i.value);
      TextSame(k, u, v, a, d.defaults[i.value].value, r);
    }
    BoundsSame(k, u, v, a, d, 0, r);
    NumericDefaultSame(k, u, v, a, d, Bounds(k, u, d.typ, d.ranges, 0, r), 0, "", r);
  }

  /** What the change does not reach has the same value afterwards. */
  lemma {:induction false} ValSame(k: Kconf, u: Users, v: Users, a: set<string>, s: string)
    requires Comparable(k, u, v, a) && s in k.syms && s !in a
    ensures Val(k, u, s) == Val(k, v, s)
    decreases k.rank(s), 1
  {
    hide Mixed, SymVis, TriValue, StringText, NumericText, SameLook, Comparable, Ordered, UsersFit;
    ComparableFits(k, u, v, a);
    LookSame(k, u, v, a, k.rank(s));
    if TriType(k.syms[s].typ) { TriValueSame(k, u, v, a, s); }
    TextsSame(k, u, v, a, s);
  }

  lemma {:induction false} LookSame(k: Kconf, u: Users, v: Users, a: set<string>, bound: nat)
    requires Comparable(k, u, v, a)
    ensures SameLook(k, u, v, a, bound)
    decreases bound, 0
  {
    forall n | n in k.syms && k.rank(n) < bound && n !in a
      ensures Val(k, u, n) == Val(k, v, n)
    {
      ValSame(k, u, v, a, n);
    }
    if bound > 0 && "MODULES" in k.syms && "MODULES" !in a {
      assert SymOrdered(k, "MODULES");
      ValSame(k, u, v, a, "MODULES");
    }
  }

  // ---------- visibilities that nothing invalidates ----------

  /** Reads no symbol and does not mention m, which is y without modules. */
  predicate Constant(e: Tree)
    decreases e
  {
    match e
    case Leaf(o) => o.Str? && o.text != "m"
    case Neg(x) => Constant(x)
    case List(_, args) => AllConstant(args)
    case Rel(_, a, b) => a.Str? && (b.Some? && b.value.Item? ==> b.value.operand.Str?)
  }

  predicate AllConstant(args: seq<Tree>)
    decreases args
  {
    args == [] || (Constant(args[0]) && AllConstant(args[1..]))
  }

  lemma {:induction false} ConstantValue(e: Tree, v: Valuation, w: Valuation)
    requires Constant(e)
    ensures Value(e, v) == Value(e, w) != MOD
    decreases e
  {
    match e
    case Neg(x) => ConstantValue(x, v, w);
    case List(op, args) => ConstantValues(op, args, v, w);
    case _ =>
  }

  lemma {:induction false} ConstantValues(op: Op, args: seq<Tree>, v: Valuation, w: Valuation)
    requires AllConstant(args)
    ensures Values(op, args, v) == Values(op, args, w) != MOD
    decreases args
  {
    if args != [] {
      ConstantValue(args[0], v, w);
      ConstantValues(op, args[1..], v, w);
    }
  }

  /** Prompts whose conditions are constant. */
  predicate Steady(es: seq<Option<Tree>>) {
    forall p :: p in es && p.Some? ==> Constant(p.value)
  }

  lemma ConstantEval(k: Kconf, u: Users, v: Users, e: Option<Tree>, bound: nat)
    requires Ordered(k) && UsersFit(k, u) && UsersFit(k, v) && (e.Some? ==> Constant(e.value))
    ensures Eval(k, u, e, bound) == Eval(k, v, e, bound) != MOD
  {
    hide Ordered, UsersFit, Look, HasModules;
    if e.Some? { ConstantValue(e.value, Look(k, u, bound), Look(k, v, bound)); }
  }

  lemma {:induction false} SteadyStrongest(k: Kconf, u: Users, v: Users, es: seq<Option<Tree>>, bound: nat)
    requires Ordered(k) && UsersFit(k, u) && UsersFit(k, v) && Steady(es)
    ensures Strongest(k, u, es, bound) == Strongest(k, v, es, bound) != MOD
    decreases |es|
  {
    hide Ordered, UsersFit, Eval, HasModules;
    if es != [] {
      assert es[|es| - 1] in es && forall q :: q in es[..|es| - 1] ==> q in es;
      SteadyStrongest(k, u, v, es[..|es| - 1], bound);
      ConstantEval(k, u, v, es[|es| - 1], bound);
    }
  }

  /** A choice all of whose caches are kept up to date: its members take care of that, or there is
      nothing to do. */
  predicate Attended(k: Kconf, c: nat) {
    c < |k.choices| && (k.choices[c].members != [] || Steady(k.choices[c].prompts))
  }

  /** The same for a symbol; special ones are not invalidated. */
  predicate AttendedSymbol(k: Kconf, s: string) {
    s in k.syms && (k.syms[s].fixed.None? || Steady(k.syms[s].prompts))
  }

  lemma SteadyChoice(k: Kconf, u: Users, v: Users, c: nat)
    requires Ordered(k) && UsersFit(k, u) && UsersFit(k, v) && c < |k.choices| && Steady(k.choices[c].prompts)
    ensures ChoiceVis(k, u, c) == ChoiceVis(k, v, c)
  {
    SteadyStrongest(k, u, v, k.choices[c].prompts, k.choiceRank(c));
  }

  lemma SteadySymbol(k: Kconf, u: Users, v: Users, s: string)
    requires Ordered(k) && UsersFit(k, u) && UsersFit(k, v) && s in k.syms
    requires k.syms[s].fixed.Some? && Steady(k.syms[s].prompts)
    ensures SymVis(k, u, s) == SymVis(k, v, s)
  {
    assert SymOrdered(k, s);
    SteadyStrongest(k, u, v, k.syms[s].prompts, k.rank(s));
  }

  lemma ModulesSame(k: Kconf, u: Users, v: Users, a: set<string>)
    requires Comparable(k, u, v, a) && "MODULES" !in a
    ensures HasModules(k, u) == HasModules(k, v) && !Mixed(k, u, v, a)
  {
    if "MODULES" in k.syms { ValSame(k, u, v, a, "MODULES"); }
  }

  /** The cached visibility of a choice without members is never invalidated. It is still right after
      a change that reaches none of the symbols its prompts read. */
  lemma UnreachedChoice(k: Kconf, u: Users, v: Users, a: set<string>, c: nat)
    requires Comparable(k, u, v, a) && c < |k.choices| && ConditionNames(k.choices[c].prompts) !! a
    requires "MODULES" in a ==> HasModules(k, u) == HasModules(k, v)
    ensures ChoiceVis(k, u, c) == ChoiceVis(k, v, c)
  {
    if "MODULES" !in a { ModulesSame(k, u, v, a); }
    hide Strongest, Mixed, SameLook, ConditionsWithoutM;
    var es, r := k.choices[c].prompts, k.choiceRank(c);
    LookSame(k, u, v, a, r);
    StrongestSame(k, u, v, a, es, |es|, r);
    assert es[..|es|] == es;
  }

  /** So is that of a special symbol. */
  lemma UnreachedSymbol(k: Kconf, u: Users, v: Users, a: set<string>, s: string)
    requires Comparable(k, u, v, a) && s in k.syms && k.syms[s].fixed.Some? && ConditionNames(k.syms[s].prompts) !! a
    requires "MODULES" in a ==> HasModules(k, u) == HasModules(k, v)
    ensures SymVis(k, u, s) == SymVis(k, v, s)
  {
    if "MODULES" !in a { ModulesSame(k, u, v, a); }
    hide Strongest, Mixed, SameLook, ConditionsWithoutM, ConditionNames, Reads;
    var es, r := k.syms[s].prompts, k.rank(s);
    assert SymOrdered(k, s);
    ComparableFits(k, u, v, a);
    LookSame(k, u, v, a, r);
    StrongestSame(k, u, v, a, es, |es|, r);
    assert es[..|es|] == es;
  }

  /** Prompts that are shown exactly by one boolean symbol. */
  predicate ShownBy(k: Kconf, es: seq<Option<Tree>>, n: string, bound: nat) {
    es == [Some(Leaf(Sym(n)))] && n != "m" && n in k.syms && k.syms[n].typ == E.Boolean && k.syms[n].fixed.None? && k.rank(n) < bound
  }

  lemma ShownStrongest(k: Kconf, u: Users, es: seq<Option<Tree>>, n: string, bound: nat)
    requires Ordered(k) && UsersFit(k, u) && ShownBy(k, es, n, bound)
    ensures Strongest(k, u, es, bound) == OfBool(Val(k, u, n) == "y")
  {
    hide Ordered, UsersFit, Val, HasModules;
    assert es[..|es| - 1] == [];
    assert Strongest(k, u, [], bound) == NO;
    BooleanValue(k, u, n);
    BooleanName(Val(k, u, n));
    assert Look(k, u, bound).tri(n) == TriOfName(Val(k, u, n));
    assert Value(Leaf(Sym(n)), Look(k, u, bound)) == TriOfName(Val(k, u, n));
    assert Eval(k, u, es[|es| - 1], bound) == TriOfName(Val(k, u, n));
  }

  lemma BooleanName(s: string)
    requires s == "n" || s == "y"
    ensures TriOfName(s) == OfBool(s == "y")
  {
    var n, m, y := "n", "m", "y";
    assert n[0] != y[0] && n[0] != m[0] && m[0] != y[0];
  }

  lemma BooleanValue(k: Kconf, u: Users, n: string)
    requires Ordered(k) && UsersFit(k, u) && n in k.syms && k.syms[n].typ == E.Boolean && k.syms[n].fixed.None?
    ensures Val(k, u, n) == "n" || Val(k, u, n) == "y"
  {
    hide SymVis, PlainTri, MemberTri, StringText, NumericText, Ordered, UsersFit, SymOrdered;
    assert Val(k, u, n) == Name(TriValue(k, u, n)) && TriValue(k, u, n) != MOD;
  }

  /** Then the cached visibility is right exactly as long as that symbol has the value it had. */
  lemma ShownChoice(k: Kconf, u: Users, v: Users, c: nat, n: string)
    requires Ordered(k) && UsersFit(k, u) && UsersFit(k, v) && c < |k.choices|
    requires ShownBy(k, k.choices[c].prompts, n, k.choiceRank(c))
    ensures ChoiceVis(k, u, c) == OfBool(Val(k, u, n) == "y")
    ensures ChoiceVis(k, u, c) == ChoiceVis(k, v, c) <==> Val(k, u, n) == Val(k, v, n)
  {
    hide Val, Strongest;
    ShownStrongest(k, u, k.choices[c].prompts, n, k.choiceRank(c));
    ShownStrongest(k, v, k.choices[c].prompts, n, k.choiceRank(c));
    BooleanValue(k, u, n);
    BooleanValue(k, v, n);
  }

  lemma ShownSymbol(k: Kconf, u: Users, v: Users, s: string, n: string)
    requires Ordered(k) && UsersFit(k, u) && UsersFit(k, v) && s in k.syms && k.syms[s].fixed.Some?
    requires ShownBy(k, k.syms[s].prompts, n, k.rank(s))
    ensures SymVis(k, u, s) == OfBool(Val(k, u, n) == "y")
    ensures SymVis(k, u, s) == SymVis(k, v, s) <==> Val(k, u, n) == Val(k, v, n)
  {
    var es, r := k.syms[s].prompts, k.rank(s);
    ShownStrongest(k, u, es, n, r);
    ShownStrongest(k, v, es, n, r);
    BooleanValue(k, u, n);
    BooleanValue(k, v, n);
    SpecialVis(k, u, s);
    SpecialVis(k, v, s);
    hide *;
  }

  lemma SpecialVis(k: Kconf, u: Users, s: string)
    requires Ordered(k) && UsersFit(k, u) && s in k.syms && k.syms[s].fixed.Some?
    ensures SymVis(k, u, s) == Capped(Strongest(k, u, k.syms[s].prompts, k.rank(s)), k.syms[s].typ)
  {
    hide Strongest;
    assert SymOrdered(k, s);
  }

  // ---------- user values ----------

  /** Symbol._set_user_value_no_invalidate */
  function SetUser(k: Kconf, u: Users, s: string, v: string): Users
    requires s in k.syms
  {
    var d := k.syms[s];
    if d.fixed.Some? || !d.isDefined || !Accepts(k, d.typ, v) then u
    else
      var u' := u.(val := u.val[s := v]);
      if d.choice.None? || !TriType(d.typ) then u'
      else if v == "y" then u'.(selected := u.selected[d.choice.value := s], mode := u.mode[d.choice.value := YES])
      else if v == "m" then u'.(selected := u.selected - {d.choice.value}, mode := u.mode[d.choice.value := MOD])
      else u'
  }

  /** What _unset_user_value_no_recursive_invalidate leaves of the user values */
  function UnsetUser(k: Kconf, u: Users, s: string): Users
    requires s in k.syms
  {
    var d := k.syms[s];
    var u' := u.(val := u.val - {s});
    if d.choice.None? then u' else u'.(selected := u.selected - {d.choice.value}, mode := u.mode - {d.choice.value})
  }

  lemma UsersStillFit(k: Kconf, u: Users, s: string, v: string)
    requires Ordered(k) && UsersFit(k, u) && s in k.syms
    ensures UsersFit(k, SetUser(k, u, s, v)) && UsersFit(k, UnsetUser(k, u, s))
  {
    hide Ordered;
    if k.syms[s].choice.Some? { ChoiceOfMember(k, s); }
  }

  lemma ChoiceOfMember(k: Kconf, s: string)
    requires Ordered(k) && s in k.syms && k.syms[s].choice.Some?
    ensures var c := k.syms[s].choice.value; c < |k.choices| && s in k.choices[c].members
  {
    assert SymOrdered(k, s);
  }

  /** Setting or unsetting a symbol touches it and its choice. */
  lemma SetIsLocal(k: Kconf, u: Users, s: string, v: string)
    requires Ordered(k) && UsersFit(k, u) && s in k.syms
    ensures SameOutside(k, u, SetUser(k, u, s, v), Reach(k, s)) && SameOutside(k, u, UnsetUser(k, u, s), Reach(k, s))
  {
    hide Ordered, UsersFit, Reach;
    SelfIsReached(k, s);
    forall c: nat | c < |k.choices| && (exists m :: m in k.choices[c].members && m !in Reach(k, s))
      ensures k.syms[s].choice != Some(c)
    {
      var m :| m in k.choices[c].members && m !in Reach(k, s);
      OthersAreElsewhere(k, s, c, m);
    }
  }

  lemma SelfIsReached(k: Kconf, s: string)
    requires Ordered(k) && s in k.syms
    ensures s in Reach(k, s)
  {
  }

  lemma OthersAreElsewhere(k: Kconf, s: string, c: nat, m: string)
    requires Ordered(k) && s in k.syms && c < |k.choices| && m in k.choices[c].members && m !in Reach(k, s)
    ensures k.syms[s].choice != Some(c)
  {
    hide Dependents;
    SiblingsAreReached(k, s);
    assert ChoiceOrdered(k, c);
    assert m == s || k.syms[s].choice != Some(c) || m in Siblings(k, s);
  }

  lemma SiblingsAreReached(k: Kconf, s: string)
    requires Ordered(k) && s in k.syms
    ensures Siblings(k, s) <= Reach(k, s)
  {
  }

  /** Nothing makes MODULES a dependent symbol. */
  lemma {:induction false} DependentsRankAbove(k: Kconf, n: string, s: string)
    requires Ordered(k) && n in k.syms
    ensures s in AddIgnoring(k, n) ==> s in k.syms && k.rank(s) > k.rank(n)
    ensures s in Dependents(k, n) ==> s in k.syms && k.rank(s) > 0
    decreases k.top - k.rank(n), 2
  {
    IgnoringRankAbove(k, n, s);
    hide AddIgnoring, Reads;
    if s in Dependents(k, n) && s !in AddIgnoring(k, n) {
      if s in Siblings(k, n) {
        assert SymOrdered(k, s) && ChoiceOrdered(k, k.syms[s].choice.value);
      } else {
        var m :| m in Siblings(k, n) && s in AddSibling(k, n, m);
        SiblingRank(k, n, m);
        IgnoringRankAbove(k, m, s);
      }
    }
  }

  lemma {:induction false} IgnoringRankAbove(k: Kconf, n: string, s: string)
    requires Ordered(k) && n in k.syms
    ensures s in AddIgnoring(k, n) ==> s in k.syms && k.rank(s) > k.rank(n)
    decreases k.top - k.rank(n), 0
  {
    hide Reads, Dependents;
    if s in AddIgnoring(k, n) && s !in Dep(k, n) {
      var m :| m in Dep(k, n) && s in DependentsAbove(k, n, m);
      AboveIs(k, n, m);
      DependentsRankAtLeast(k, m, s);
    } else if s in Dep(k, n) {
      assert SymOrdered(k, s);
    }
  }

  lemma {:induction false} DependentsRankAtLeast(k: Kconf, n: string, s: string)
    requires Ordered(k) && n in k.syms && s in Dependents(k, n)
    ensures s in k.syms && k.rank(s) >= k.rank(n)
    decreases k.top - k.rank(n), 1
  {
    hide Reads, AddIgnoring;
    IgnoringRankAbove(k, n, s);
    if s in Siblings(k, n) {
      SiblingRank(k, n, s);
    } else if s !in AddIgnoring(k, n) {
      var m :| m in Siblings(k, n) && s in AddSibling(k, n, m);
      SiblingRank(k, n, m);
      IgnoringRankAbove(k, m, s);
    }
  }

  lemma ModulesIsNotReached(k: Kconf, s: string)
    requires Ordered(k) && s in k.syms && s != "MODULES"
    ensures "MODULES" !in Reach(k, s)
  {
    hide Ordered, Dependents;
    DependentsRankAbove(k, s, "MODULES");
    if "MODULES" in k.syms { RankOfModules(k); }
  }

  lemma RankOfModules(k: Kconf)
    requires Ordered(k) && "MODULES" in k.syms
    ensures k.rank("MODULES") == 0
  {
    assert SymOrdered(k, "MODULES");
  }

  /** Setting a symbol other than MODULES, or unsetting it, can only be seen by its dependents. */
  lemma ChangesCompare(k: Kconf, u: Users, s: string, v: Users)
    requires Ordered(k) && UsersFit(k, u) && UsersFit(k, v) && s in k.syms && SameOutside(k, u, v, Reach(k, s))
    requires s != "MODULES" || HasModules(k, u) == HasModules(k, v)
    ensures Comparable(k, u, v, Reach(k, s))
  {
    hide SameOutside, UsersFit, HasModules, Ordered, Reach, Closed;
    ReachIsClosed(k, s);
    if s != "MODULES" { ModulesIsNotReached(k, s); }
  }

  /** Whatever changes, MODULES included, only a set of symbols can see it that has all dependents of
      its symbols and all symbols whose evaluation may meet an m. */
  lemma ModulesCompare(k: Kconf, u: Users, s: string, v: Users, a: set<string>)
    requires Ordered(k) && UsersFit(k, u) && UsersFit(k, v) && s in k.syms && SameOutside(k, u, v, Reach(k, s))
    requires Reach(k, s) <= a && Closed(k, a) && MeetsNoM(k, a)
    ensures Comparable(k, u, v, a)
  {
    hide UsersFit, HasModules, Ordered, Reach, Closed, MeetsNoM;
  }

  /** Two symbols: MODULES, and a tristate that is m by default. */
  ghost predicate ModulesAndDriver(k: Kconf) {
    && k.syms == map["MODULES" := SymDef(E.Boolean, true, [None], [], Leaf(Str("n")), [], None, None),
                     "DRIVER" := SymDef(E.Tristate, true, [], [Default(Leaf(Str("m")), None)], Leaf(Str("n")), [], None, None)]
    && k.choices == [] && k.rank("MODULES") == 0 && k.rank("DRIVER") == 1 && k.top == 1
  }

  lemma ModulesAndDriverOrdered(k: Kconf)
    requires ModulesAndDriver(k)
    ensures Ordered(k) && Reach(k, "MODULES") == {"MODULES"}
  {
    assert Reads(k, k.syms["DRIVER"]) == {} && Reads(k, k.syms["MODULES"]) == {};
    assert SymOrdered(k, "DRIVER") && SymOrdered(k, "MODULES");
    assert Dep(k, "MODULES") == {} && Siblings(k, "MODULES") == {};
    hide ModulesAndDriver, SymOrdered, ChoiceOrdered;
    LonelyReach(k, "MODULES");
  }

  lemma LonelyReach(k: Kconf, s: string)
    requires Ordered(k) && s in k.syms && Dep(k, s) == {} && Siblings(k, s) == {}
    ensures Reach(k, s) == {s}
  {
    hide Ordered, Dep, Siblings;
    assert AddIgnoring(k, s) == {};
    assert Dependents(k, s) == {};
  }

  lemma ModulesFollowsUser(k: Kconf, u: Users)
    requires ModulesAndDriver(k) && Ordered(k) && UsersFit(k, u)
    ensures HasModules(k, u) <==> "MODULES" in u.val && u.val["MODULES"] == "y"
  {
    hide Ordered, UsersFit;
    var m := k.syms["MODULES"];
    assert m.prompts[..|m.prompts| - 1] == [];
    assert Strongest(k, u, [], 0) == NO;
    assert Strongest(k, u, m.prompts, 0) == YES;
    assert SymVis(k, u, "MODULES") == YES;
    assert Eval(k, u, Some(m.rev), 0) == NO;
    assert Active(k, u, m.defaults, 0, 0) == None;
    if "MODULES" in u.val { UserOf(k, u, "MODULES"); }
    assert DefaultTri(k, u, m.defaults, 0) == NO;
    var own: Tri := if "MODULES" in u.val then TriOfName(u.val["MODULES"]) else NO;
    assert OwnTri(k, u, "MODULES", YES) == own;
    assert PlainTri(k, u, "MODULES", YES) == own;
    assert TriValue(k, u, "MODULES") == own;
    assert Val(k, u, "MODULES") == Name(own);
  }

  lemma UserOf(k: Kconf, u: Users, s: string)
    requires UsersFit(k, u) && s in u.val
    ensures s in k.syms && Accepts(k, k.syms[s].typ, u.val[s])
  {
  }

  lemma DriverFollowsModules(k: Kconf, u: Users)
    requires ModulesAndDriver(k) && Ordered(k) && UsersFit(k, u)
    ensures Val(k, u, "DRIVER") == if HasModules(k, u) then "m" else "y"
  {
    hide Ordered, UsersFit, HasModules;
    var d := k.syms["DRIVER"];
    assert Strongest(k, u, d.prompts, 1) == NO;
    assert SymVis(k, u, "DRIVER") == NO;
    assert Active(k, u, d.defaults, 0, 1) == Some(0);
    assert Eval(k, u, Some(d.rev), 1) == NO;
    var own: Tri := if HasModules(k, u) then MOD else YES;
    assert DefaultTri(k, u, d.defaults, 1) == own;
    assert OwnTri(k, u, "DRIVER", NO) == own;
    assert PlainTri(k, u, "DRIVER", NO) == own;
    assert TriValue(k, u, "DRIVER") == own;
    assert Val(k, u, "DRIVER") == Name(own);
  }

  /** For MODULES the dependents are not enough: the tristate changes from m to y when MODULES is
      unset, but does not read it. */
  lemma ModulesReachesFurther(k: Kconf, u: Users)
    requires ModulesAndDriver(k) && u == Users(map["MODULES" := "y"], map[], map[])
    ensures Ordered(k) && UsersFit(k, u) && UsersFit(k, UnsetUser(k, u, "MODULES"))
    ensures "DRIVER" !in Reach(k, "MODULES")
    ensures Val(k, u, "DRIVER") == "m" && Val(k, UnsetUser(k, u, "MODULES"), "DRIVER") == "y"
  {
    ModulesAndDriverOrdered(k);
    assert UsersFit(k, u);
    hide Ordered, UsersFit, Reach, Val, HasModules;
    UsersStillFit(k, u, "MODULES", "n");
    var v := UnsetUser(k, u, "MODULES");
    ModulesFollowsUser(k, u);
    ModulesFollowsUser(k, v);
    DriverFollowsModules(k, u);
    DriverFollowsModules(k, v);
  }
}
