/** The cached evaluation of support/scripts/kconfiglib.py: Symbol.get_value, Choice.get_selection and
    the visibilities with their caches, and the invalidation that setting user values causes. */
module KconfigCache {
  import opened Tristates
  import opened Wrappers
  import opened ExprParser
  import opened KconfigValues
  import opened KconfigChanges
  import E = Expressions

  /** The names can be looked up by a reader at rank bound. */
  ghost predicate Known(k: Kconf, names: set<string>, bound: nat) {
    forall n :: n in names ==> n in k.syms && k.rank(n) < bound
  }

  /** An expression that is not m can be evaluated without asking for MODULES. */
  ghost predicate Askable(e: Option<Tree>, bound: nat) {
    bound > 0 || (e.Some? ==> Definite(e.value))
  }

  /** Every cached value, visibility and selection is the one that evaluation without caches gives.
      The visibilities of choices without members and of special symbols are never invalidated, so
      of those only the steady ones are known to be right. */
  ghost predicate CachesRight(k: Kconf, u: Users, value: map<string, string>, vis: map<string, Tri>,
                              choiceVis: map<nat, Tri>, selection: map<nat, Option<string>>)
    requires Ordered(k) && UsersFit(k, u)
  {
    && (forall s :: s in value ==> s in k.syms && value[s] == Val(k, u, s))
    && (forall s :: s in vis ==> s in k.syms && (AttendedSymbol(k, s) ==> vis[s] == SymVis(k, u, s)))
    && (forall c :: c in choiceVis && Attended(k, c) ==> choiceVis[c] == ChoiceVis(k, u, c))
    && (forall c :: c in selection && c < |k.choices| ==> selection[c] == Selection(k, u, c))
  }

  class Config {
    const k: Kconf
    var user: Users
    /** cached_value, cached_visibility and cached_selection, where they are set; None is NO_SELECTION */
    var value: map<string, string>
    var vis: map<string, Tri>
    var choiceVis: map<nat, Tri>
    var selection: map<nat, Option<string>>
    /** dep, and cached_deps where set */
    var dep: map<string, set<string>>
    var deps: map<string, set<string>>

    /** A configuration right after parsing: nothing is cached but the values of special symbols. */
    constructor (k: Kconf)
      requires Ordered(k)
      ensures Right() && this.k == k && user == Users(map[], map[], map[])
      ensures vis == map[] && choiceVis == map[] && selection == map[]
    {
      hide Ordered, Val, SymVis, ChoiceVis, Selection, Dependents, Dep;
      this.k := k;
      user := Users(map[], map[], map[]);
      value := map s | s in k.syms && k.syms[s].fixed.Some? :: k.syms[s].fixed.value;
      vis, choiceVis, selection, deps := map[], map[], map[], map[];
      new;
      FixedValues(k, user, value);
      dep := BuildDep(k);
    }

    ghost predicate Shape()
      reads this
    {
      && Ordered(k) && UsersFit(k, user)
      && dep.Keys == k.syms.Keys && (forall n :: n in k.syms ==> dep[n] == Dep(k, n))
      && (forall n :: n in deps ==> n in k.syms && deps[n] == Dependents(k, n))
      && (forall s :: s in k.syms && k.syms[s].fixed.Some? ==> s in value && value[s] == k.syms[s].fixed.value)
    }

    ghost predicate Right()
      reads this
    {
      Shape() && CachesRight(k, user, value, vis, choiceVis, selection)
    }

    lemma ShapeFits()
      requires Shape()
      ensures Ordered(k) && UsersFit(k, user)
    {
    }

    lemma RightFits()
      requires Right()
      ensures Ordered(k) && UsersFit(k, user)
    {
    }

    /** _eval_expr_2 */
    method EvalTree(e: Tree, ghost bound: nat) returns (t: Tri)
      requires Right() && Known(k, Names(e), bound)
      modifies this`value, this`vis, this`choiceVis, this`selection
      ensures Right() && t == Value(e, Look(k, user, bound))
      decreases bound, 2, e
    {
      hide Right, Ordered, UsersFit, Look;
      RightFits();
      match e
      case Leaf(o) => t := TriOperand(o, bound);
      case Neg(x) =>
        t := EvalTree(x, bound);
        t := Negate(t);
      case List(op, args) => t := EvalList(op, args, bound);
      case Rel(equal, a, b) =>
        if b.Some? && b.value.Item? {
          var x := TextOperand(a, bound);
          var y := TextOperand(b.value.operand, bound);
          t := OfBool((x == y) == equal);
        } else {
          t := NO;
        }
    }

    /** The loop over the operands, which stops as soon as the outcome is known. */
    method EvalList(op: Op, args: seq<Tree>, ghost bound: nat) returns (t: Tri)
      requires Right() && Known(k, AllNames(args), bound)
      modifies this`value, this`vis, this`choiceVis, this`selection
      ensures Right() && t == Values(op, args, Look(k, user, bound))
      decreases bound, 2, args
    {
      hide Right, Look;
      RightFits();
      t := if op == And then YES else NO;
      var stop := if op == And then NO else YES;
      ghost var look := Look(k, user, bound);
      var i := 0;
      while i < |args|
        invariant 0 <= i <= |args| && t != stop
        invariant Right()
        invariant Values(op, args, look) == Combine(op, t, Values(op, args[i..], look))
        decreases |args| - i
      {
        ArgNames(args, i);
        var v := EvalTree(args[i], bound);
        assert args[i..][0] == args[i] && args[i..][1..] == args[i + 1..];
        if v == stop { return stop; }
        if v == MOD { t := MOD; }
        i := i + 1;
      }
    }

    method TriOperand(o: Operand, ghost bound: nat) returns (t: Tri)
      requires Right() && Known(k, OperandNames(o), bound)
      modifies this`value, this`vis, this`choiceVis, this`selection
      ensures Right() && t == TriOf(o, Look(k, user, bound))
      decreases bound, 1
    {
      hide Right, Ordered, UsersFit, Val;
      RightFits();
      OperandSeen(k, user, o, bound);
      match o
      case Str(text) => t := TriOfName(text);
      case Sym(name) =>
        if !TriType(k.syms[name].typ) { return NO; }
        var v := GetValue(name);
        t := TriOfName(v);
    }

    /** _get_str_value */
    method TextOperand(o: Operand, ghost bound: nat) returns (s: string)
      requires Right() && Known(k, OperandNames(o), bound)
      modifies this`value, this`vis, this`choiceVis, this`selection
      ensures Right() && s == StrOf(o, Look(k, user, bound))
      decreases bound, 1
    {
      hide Right, Ordered, UsersFit, Val;
      RightFits();
      OperandSeen(k, user, o, bound);
      match o
      case Str(text) => s := text;
      case Sym(name) => s := GetValue(name);
    }

    /** _has_modules */
    method HasModulesNow(ghost bound: nat) returns (b: bool)
      requires Right() && bound > 0
      modifies this`value, this`vis, this`choiceVis, this`selection
      ensures Right() && b == HasModules(k, user)
      decreases bound, 1
    {
      hide Right, UsersFit, Val, SymOrdered;
      RightFits();
      b := false;
      if "MODULES" in k.syms {
        RankOfModules(k);
        var v := GetValue("MODULES");
        b := v == "y";
      }
    }

    /** _eval_expr on a tristate constant */
    method UpTri(t: Tri, ghost bound: nat) returns (r: Tri)
      requires Right() && (bound > 0 || t != MOD)
      modifies this`value, this`vis, this`choiceVis, this`selection
      ensures Right() && r == Up(k, user, t, bound)
      decreases bound, 3
    {
      hide Right, Ordered, UsersFit, HasModules;
      RightFits();
      r := t;
      if t == MOD {
        var has := HasModulesNow(bound);
        if !has { r := YES; }
      }
    }

    /** _eval_expr */
    method EvalExpr(e: Option<Tree>, ghost bound: nat) returns (t: Tri)
      requires Right() && Known(k, NamesOpt(e), bound) && Askable(e, bound)
      modifies this`value, this`vis, this`choiceVis, this`selection
      ensures Right() && t == Eval(k, user, e, bound)
      decreases bound, 4
    {
      hide Right, Ordered, UsersFit, HasModules, Look, Up;
      RightFits();
      if e.None? { return YES; }
      t := EvalTree(e.value, bound);
      if Definite(e.value) { DefiniteIsNotM(e.value, Look(k, user, bound)); }
      t := UpTri(t, bound);
    }

    /** The loop over prompts in _get_visibility */
    method StrongestPrompt(es: seq<Option<Tree>>, ghost bound: nat) returns (t: Tri)
      requires Right() && Known(k, ConditionNames(es), bound) && (bound > 0 || forall p :: p in es ==> p.None?)
      modifies this`value, this`vis, this`choiceVis, this`selection
      ensures Right() && t == Strongest(k, user, es, bound) && (bound > 0 || t != MOD)
      decreases bound, 5
    {
      hide Right, Ordered, UsersFit, Eval, Up, ConditionNames;
      RightFits();
      t := NO;
      var i := 0;
      while i < |es|
        invariant 0 <= i <= |es| && Right() && (bound > 0 || t != MOD)
        invariant t == Strongest(k, user, es[..i], bound)
        decreases |es| - i
      {
        ConditionAt(es, i);
        assert es[i] in es;
        assert es[..i + 1][..i] == es[..i];
        var u := UpTri(t, bound);
        var v := EvalExpr(es[i], bound);
        UpAtZero(k, user, t);
        EvalAtZero(k, user, es[i]);
        t := Max(u, v);
        i := i + 1;
      }
      assert es[..|es|] == es;
    }

    /** _get_visibility of a choice */
    method ChoiceVisibility(c: nat) returns (t: Tri)
      requires Right() && c < |k.choices|
      modifies this`value, this`vis, this`choiceVis, this`selection
      ensures Right() && (Attended(k, c) || c !in old(choiceVis) ==> t == ChoiceVis(k, user, c))
      ensures c in choiceVis && choiceVis[c] == t && (c in old(choiceVis) ==> t == old(choiceVis[c]))
      decreases k.choiceRank(c), 6
    {
      hide Right, Ordered, UsersFit, Strongest;
      RightFits();
      if c in choiceVis {
        CachedChoiceVis(c);
        return choiceVis[c];
      }
      ChoiceKnown(k, c);
      t := StrongestPrompt(k.choices[c].prompts, k.choiceRank(c));
      t := Capped(t, k.choices[c].typ);
      StoreChoiceVis(c, t);
    }

    lemma CachedChoiceVis(c: nat)
      requires Right() && c in choiceVis && c < |k.choices|
      ensures Attended(k, c) ==> Ordered(k) && UsersFit(k, user) && choiceVis[c] == ChoiceVis(k, user, c)
    {
    }

    method StoreChoiceVis(c: nat, t: Tri)
      requires Right() && c < |k.choices| && t == ChoiceVis(k, user, c)
      modifies this`choiceVis
      ensures Right() && choiceVis == old(choiceVis)[c := t]
    {
      hide SymVis, Val, Selection, ChoiceVis, Ordered, UsersFit, Dependents, Dep;
      choiceVis := choiceVis[c := t];
    }

    /** _get_visibility of a symbol */
    method SymVisibility(s: string) returns (t: Tri)
      requires Right() && s in k.syms
      modifies this`value, this`vis, this`choiceVis, this`selection
      ensures Right() && (AttendedSymbol(k, s) || s !in old(vis) ==> t == SymVis(k, user, s))
      ensures s in vis && vis[s] == t && (s in old(vis) ==> t == old(vis[s]))
      decreases k.rank(s), 7
    {
      hide Ordered, UsersFit, Strongest, Val, ChoiceVis, Selection, Up, Right, SymVis;
      RightFits();
      if s in vis {
        CachedVis(s);
        return vis[s];
      }
      var d := k.syms[s];
      SymKnown(k, s);
      VisCases(k, user, s);
      t := StrongestPrompt(d.prompts, k.rank(s));
      if d.choice.Some? {
        MemberKnown(k, s);
        t := UpTri(t, k.rank(s));
        var u := ChoiceVisibility(d.choice.value);
        u := UpTri(u, k.rank(s));
        t := Min(t, u);
      }
      t := Capped(t, d.typ);
      StoreVis(s, t);
    }

    lemma CachedVis(s: string)
      requires Right() && s in vis
      ensures s in k.syms && Ordered(k) && UsersFit(k, user) && (AttendedSymbol(k, s) ==> vis[s] == SymVis(k, user, s))
    {
    }

    method StoreVis(s: string, t: Tri)
      requires Right() && s in k.syms && t == SymVis(k, user, s)
      modifies this`vis
      ensures Right() && vis == old(vis)[s := t]
    {
      hide SymVis, Val, Selection, ChoiceVis, Ordered, UsersFit, Dependents, Dep;
      vis := vis[s := t];
    }

    /** get_mode */
    method GetMode(c: nat) returns (t: Tri)
      requires Right() && c < |k.choices|
      modifies this`value, this`vis, this`choiceVis, this`selection
      ensures Right() && (Attended(k, c) ==> t == Mode(k, user, c))
      decreases k.choiceRank(c), 8
    {
      hide Right, Ordered, UsersFit, ChoiceVis, Up;
      RightFits();
      ChoiceKnown(k, c);
      t := if c in user.mode then user.mode[c] else if k.choices[c].optional then NO else MOD;
      var v := ChoiceVisibility(c);
      t := UpTri(t, k.choiceRank(c));
      v := UpTri(v, k.choiceRank(c));
      t := CappedBool(Min(t, v), k.choices[c].typ);
    }

    method MemberVisibility(c: nat, m: string) returns (t: Tri)
      requires Right() && c < |k.choices| && m in k.choices[c].members
      modifies this`value, this`vis, this`choiceVis, this`selection
      ensures Right() && m in k.syms && t == SymVis(k, user, m)
      decreases k.choiceRank(c), 8
    {
      hide Right, Ordered, UsersFit, SymVis;
      RightFits();
      MemberOf(k, c, m);
      t := SymVisibility(m);
    }

    /** The member that get_selection_from_defaults looks at first */
    method ChosenMember(c: nat) returns (m: string)
      requires Right() && c < |k.choices| && k.choices[c].members != []
      modifies this`value, this`vis, this`choiceVis, this`selection
      ensures Right() && m == Chosen(k, user, c, 0)
      decreases k.choiceRank(c), 9
    {
      hide Right, Ordered, UsersFit, Eval;
      RightFits();
      ChoiceKnown(k, c);
      var ps := k.choices[c].picks;
      var i := 0;
      while i < |ps|
        invariant 0 <= i <= |ps| && Right()
        invariant Chosen(k, user, c, 0) == Chosen(k, user, c, i)
        decreases |ps| - i
      {
        PickAt(ps, i);
        var t := EvalExpr(ps[i].cond, k.choiceRank(c));
        if t != NO { return ps[i].symbol; }
        i := i + 1;
      }
      m := k.choices[c].members[0];
    }

    method FirstVisible(c: nat) returns (r: Option<string>)
      requires Right() && c < |k.choices|
      modifies this`value, this`vis, this`choiceVis, this`selection
      ensures Right() && r == FirstSeen(k, user, c, 0)
      decreases k.choiceRank(c), 9
    {
      hide Right, Ordered, UsersFit, SymVis;
      RightFits();
      var ms := k.choices[c].members;
      var i := 0;
      while i < |ms|
        invariant 0 <= i <= |ms| && Right()
        invariant FirstSeen(k, user, c, 0) == FirstSeen(k, user, c, i)
        decreases |ms| - i
      {
        var t := MemberVisibility(c, ms[i]);
        if t != NO { return Some(ms[i]); }
        i := i + 1;
      }
      r := None;
    }

    /** get_selection_from_defaults */
    method SelectionFromDefaults(c: nat) returns (r: Option<string>)
      requires Right() && c < |k.choices|
      modifies this`value, this`vis, this`choiceVis, this`selection
      ensures Right() && r == FromDefaults(k, user, c)
      decreases k.choiceRank(c), 10
    {
      hide Right, Ordered, UsersFit, SymVis, Chosen, FirstSeen;
      RightFits();
      if k.choices[c].members == [] { return None; }
      var m := ChosenMember(c);
      var t := MemberVisibility(c, m);
      if t != NO { return Some(m); }
      r := FirstVisible(c);
    }

    /** get_selection */
    method GetSelection(c: nat) returns (r: Option<string>)
      requires Right() && c < |k.choices|
      modifies this`value, this`vis, this`choiceVis, this`selection
      ensures Right() && r == Selection(k, user, c)
      decreases k.choiceRank(c), 12
    {
      hide Right, Ordered, UsersFit, SymVis, Selection;
      RightFits();
      if c in selection {
        CachedSelection(c);
        return selection[c];
      }
      r := Select(c);
      StoreSelection(c, r);
    }

    /** The part of get_selection without the cache */
    method Select(c: nat) returns (r: Option<string>)
      requires Right() && c < |k.choices|
      modifies this`value, this`vis, this`choiceVis, this`selection
      ensures Right() && r == Selection(k, user, c)
      decreases k.choiceRank(c), 11
    {
      hide Right, Ordered, SymVis, Mode, FromDefaults, Up;
      RightFits();
      if k.choices[c].members == [] { NothingSelected(k, user, c); }
      var mode := GetMode(c);
      if mode != YES { return None; }
      if c in user.selected {
        var t := MemberVisibility(c, user.selected[c]);
        if t == YES { return Some(user.selected[c]); }
      }
      if k.choices[c].optional { return None; }
      r := SelectionFromDefaults(c);
    }

    lemma CachedSelection(c: nat)
      requires Right() && c in selection && c < |k.choices|
      ensures Ordered(k) && UsersFit(k, user) && selection[c] == Selection(k, user, c)
    {
    }

    /** _cache_ret */
    method StoreSelection(c: nat, r: Option<string>)
      requires Right() && c < |k.choices| && r == Selection(k, user, c)
      modifies this`selection
      ensures Right()
    {
      hide SymVis, Val, Selection, ChoiceVis, Ordered, UsersFit, Dependents, Dep;
      selection := selection[c := r];
    }

    /** The loop over defaults that looks for the first one whose condition is not n */
    method ActiveDefault(ds: seq<Default>, ghost bound: nat) returns (i: Option<nat>, cond: Tri)
      requires Right() && Known(k, DefaultNames(ds), bound) && (bound > 0 || forall x :: x in ds ==> x.cond.None?)
      modifies this`value, this`vis, this`choiceVis, this`selection
      ensures Right() && i == Active(k, user, ds, 0, bound)
      ensures i.Some? ==> cond == Eval(k, user, ds[i.value].cond, bound) && (bound > 0 || cond != MOD)
      decreases bound, 5
    {
      hide Right, Ordered, UsersFit, Eval, DefaultNames;
      RightFits();
      cond := NO;
      var j := 0;
      while j < |ds|
        invariant 0 <= j <= |ds| && Right()
        invariant Active(k, user, ds, 0, bound) == Active(k, user, ds, j, bound)
        decreases |ds| - j
      {
        DefaultAt(ds, j);
        assert ds[j] in ds;
        cond := EvalExpr(ds[j].cond, bound);
        EvalAtZero(k, user, ds[j].cond);
        if cond != NO { return Some(j), cond; }
        j := j + 1;
      }
      i := None;
    }

    /** The tristate of a choice value with visibility v */
    method MemberTriNow(s: string, c: nat, v: Tri) returns (t: Tri)
      requires Right() && c < |k.choices| && k.choices[c].members != []
      modifies this`value, this`vis, this`choiceVis, this`selection
      ensures Right() && t == MemberTri(k, user, s, c, v)
      decreases k.choiceRank(c), 13
    {
      hide Right, Ordered, UsersFit, Mode, Selection;
      RightFits();
      if v == NO { return NO; }
      var mode := GetMode(c);
      if mode == YES {
        var r := GetSelection(c);
        t := OfBool(r == Some(s));
      } else if mode == MOD && s in user.val && user.val[s] in {"m", "y"} {
        t := MOD;
      } else {
        t := NO;
      }
    }

    /** The tristate that the defaults give */
    method DefaultTriNow(ds: seq<Default>, ghost bound: nat) returns (t: Tri)
      requires Right() && Known(k, DefaultNames(ds), bound)
      requires bound > 0 || forall x :: x in ds ==> x.cond.None? && Definite(x.value)
      modifies this`value, this`vis, this`choiceVis, this`selection
      ensures Right() && t == DefaultTri(k, user, ds, bound) && (bound > 0 || t != MOD)
      decreases bound, 6
    {
      hide Right, Ordered, UsersFit, Eval, Up, Active, DefaultNames;
      RightFits();
      var i, cond := ActiveDefault(ds, bound);
      if i.None? { return NO; }
      DefaultAt(ds, i.value);
      assert ds[i.value] in ds;
      t := EvalExpr(Some(ds[i.value].value), bound);
      var c := UpTri(cond, bound);
      EvalAtZero(k, user, Some(ds[i.value].value));
      t := Min(t, c);
      UpAtZero(k, user, cond);
    }

    /** The tristate of a symbol that is no choice value, with visibility v */
    method OwnTriNow(s: string, v: Tri) returns (t: Tri)
      requires Right() && s in k.syms && TriType(k.syms[s].typ) && k.syms[s].fixed.None? && (k.rank(s) > 0 || v != MOD)
      modifies this`value, this`vis, this`choiceVis, this`selection
      ensures Right() && t == OwnTri(k, user, s, v) && (k.rank(s) > 0 || t != MOD)
      decreases k.rank(s), 7
    {
      hide Right, Ordered, UsersFit, DefaultTri, Up, DefaultNames;
      RightFits();
      SymKnown(k, s);
      ghost var r := k.rank(s);
      if v != NO && s in user.val {
        UserFits(k, user, s);
        t := UpTri(TriOfName(user.val[s]), r);
        var u := UpTri(v, r);
        UpAtZero(k, user, TriOfName(user.val[s]));
        t := Min(t, u);
        UpAtZero(k, user, v);
      } else {
        t := DefaultTriNow(k.syms[s].defaults, r);
      }
    }

    method PlainTriNow(s: string, v: Tri) returns (t: Tri)
      requires Right() && s in k.syms && TriType(k.syms[s].typ) && k.syms[s].fixed.None? && (k.rank(s) > 0 || v != MOD)
      modifies this`value, this`vis, this`choiceVis, this`selection
      ensures Right() && t == PlainTri(k, user, s, v)
      decreases k.rank(s), 8
    {
      hide Right, Ordered, UsersFit, OwnTri, Up, Eval, Names;
      RightFits();
      SymKnown(k, s);
      ghost var r := k.rank(s);
      t := OwnTriNow(s, v);
      var rev := EvalExpr(Some(k.syms[s].rev), r);
      EvalAtZero(k, user, Some(k.syms[s].rev));
      if rev != NO {
        t := UpTri(t, r);
        rev := UpTri(rev, r);
        t := Max(t, rev);
      }
    }

    /** _get_str_value on a value expression */
    method TextNow(e: Tree, ghost bound: nat) returns (text: string)
      requires Right() && Known(k, Names(e), bound)
      modifies this`value, this`vis, this`choiceVis, this`selection
      ensures Right() && text == TextOf(k, user, e, bound)
      decreases bound, 2
    {
      hide Right, Ordered, UsersFit, Look;
      RightFits();
      if !e.Leaf? { return ""; }
      text := TextOperand(e.operand, bound);
    }

    /** The string case of get_value, with visibility v */
    method StringNow(s: string, v: Tri) returns (text: string)
      requires Right() && s in k.syms && v == SymVis(k, user, s)
      modifies this`value, this`vis, this`choiceVis, this`selection
      ensures Right() && text == StringText(k, user, s)
      decreases k.rank(s), 8
    {
      hide Right, Ordered, UsersFit, SymVis, Active, TextOf, DefaultNames, Names;
      RightFits();
      SymKnown(k, s);
      if v != NO && s in user.val { return user.val[s]; }
      var ds := k.syms[s].defaults;
      var i, _ := ActiveDefault(ds, k.rank(s));
      if i.None? { return ""; }
      DefaultAt(ds, i.value);
      text := TextNow(ds[i.value].value, k.rank(s));
    }

    /** The active range of a numeric symbol */
    method ActiveRange(typ: E.SymType, rs: seq<Range>, ghost bound: nat) returns (range: Option<(int, int)>)
      requires Right() && Known(k, RangeNames(rs), bound) && (bound > 0 || rs == [])
      modifies this`value, this`vis, this`choiceVis, this`selection
      ensures Right() && range == Bounds(k, user, typ, rs, 0, bound)
      decreases bound, 5
    {
      hide Right, Ordered, UsersFit, Eval, TextOf, RangeNames;
      RightFits();
      var i := 0;
      while i < |rs|
        invariant 0 <= i <= |rs| && Right()
        invariant Bounds(k, user, typ, rs, 0, bound) == Bounds(k, user, typ, rs, i, bound)
        decreases |rs| - i
      {
        RangeAt(rs, i);
        var cond := EvalExpr(rs[i].cond, bound);
        if cond != NO {
          var low := TextNow(Leaf(rs[i].low), bound);
          var high := TextNow(Leaf(rs[i].high), bound);
          return Some((Numeric(k, typ, low), Numeric(k, typ, high)));
        }
        i := i + 1;
      }
      range := None;
    }

    /** The loop over the defaults of a numeric symbol */
    method NumericDefaultNow(d: SymDef, range: Option<(int, int)>, ghost bound: nat) returns (text: string)
      requires Right() && Known(k, DefaultNames(d.defaults), bound)
      requires bound > 0 || forall x :: x in d.defaults ==> x.cond.None?
      modifies this`value, this`vis, this`choiceVis, this`selection
      ensures Right() && text == NumericDefault(k, user, d, range, 0, "", bound)
      decreases bound, 5
    {
      hide Right, Ordered, UsersFit, Eval, TextOf, DefaultNames, Names;
      RightFits();
      text := "";
      var i := 0;
      while i < |d.defaults|
        invariant 0 <= i <= |d.defaults| && Right()
        invariant NumericDefault(k, user, d, range, 0, "", bound) == NumericDefault(k, user, d, range, i, text, bound)
        decreases |d.defaults| - i
      {
        DefaultAt(d.defaults, i);
        assert d.defaults[i] in d.defaults;
        var cond := EvalExpr(d.defaults[i].cond, bound);
        if cond != NO {
          text := TextNow(d.defaults[i].value, bound);
          var n := k.number(d.typ, text);
          if n.Some? { return Clamped(k, d.typ, range, text, n.value); }
        }
        i := i + 1;
      }
      if range.Some? && range.value.0 > 0 { text := k.show(d.typ, range.value.0); }
    }

    /** The numeric case of get_value, with visibility v */
    method NumericNow(s: string, v: Tri) returns (text: string)
      requires Right() && s in k.syms && v == SymVis(k, user, s)
      modifies this`value, this`vis, this`choiceVis, this`selection
      ensures Right() && text == NumericText(k, user, s)
      decreases k.rank(s), 8
    {
      hide Right, Ordered, UsersFit, SymVis, Bounds, NumericDefault, DefaultNames, RangeNames;
      RightFits();
      SymKnown(k, s);
      var d := k.syms[s];
      var range := ActiveRange(d.typ, d.ranges, k.rank(s));
      if v != NO && s in user.val && Acceptable(k, d.typ, range, user.val[s]) { return user.val[s]; }
      text := NumericDefaultNow(d, range, k.rank(s));
    }

    /** get_value */
    method GetValue(s: string) returns (v: string)
      requires s in k.syms && (Right() || s in value)
      modifies this`value, this`vis, this`choiceVis, this`selection
      ensures old(Right()) ==> Right() && v == Val(k, user, s)
      ensures s in value && value[s] == v
      ensures s in old(value) ==> value == old(value) && vis == old(vis) && choiceVis == old(choiceVis) && selection == old(selection)
      decreases k.rank(s), 30
    {
      hide Right, Ordered, UsersFit, SymVis, Val;
      if s in value {
        if Right() { CachedValue(s); }
        return value[s];
      }
      RightFits();
      v := Calculate(s);
      StoreValue(s, v);
    }

    lemma CachedValue(s: string)
      requires Right() && s in value
      ensures s in k.syms && Ordered(k) && UsersFit(k, user) && value[s] == Val(k, user, s)
    {
    }

    lemma FixedIsCached(s: string)
      requires Right() && s in k.syms && s !in value
      ensures k.syms[s].fixed.None?
    {
    }

    method StoreValue(s: string, v: string)
      requires Right() && s in k.syms && v == Val(k, user, s)
      modifies this`value
      ensures Right() && value == old(value)[s := v]
    {
      hide SymVis, Selection, ChoiceVis, Ordered, UsersFit, Dependents, Dep;
      value := value[s := v];
    }

    /** The part of get_value without the cache */
    method Calculate(s: string) returns (v: string)
      requires Right() && s in k.syms && s !in value
      modifies this`value, this`vis, this`choiceVis, this`selection
      ensures Right() && v == Val(k, user, s)
      decreases k.rank(s), 29
    {
      hide Right, Ordered, UsersFit, SymVis, StringText, NumericText, MemberTri, PlainTri;
      RightFits();
      FixedIsCached(s);
      SymKnown(k, s);
      var d := k.syms[s];
      if d.typ == E.Unknown { return s; }
      var seen := SymVisibility(s);
      if TriType(d.typ) {
        var t;
        if d.choice.Some? {
          MemberKnown(k, s);
          t := MemberTriNow(s, d.choice.value, seen);
        } else {
          VisIsCapped(k, user, s);
          t := PlainTriNow(s, seen);
        }
        v := Name(CappedBool(t, d.typ));
      } else if d.typ == E.String {
        v := StringNow(s, seen);
      } else {
        v := NumericNow(s, seen);
      }
    }

    // ---------- dependents ----------

    /** _get_dependent; a ghost ranking bounds the recursion. */
    method GetDependent(s: string) returns (res: set<string>)
      requires Shape() && s in k.syms
      modifies this`deps
      ensures Shape() && res == Dependents(k, s)
      decreases k.top - k.rank(s), 3
    {
      hide Shape, Ordered, UsersFit, Dependents, AddIgnoring;
      ShapeFits();
      if s in deps {
        CachedDeps(s);
        return deps[s];
      }
      res := AddDependent(s, {});
      var d := k.syms[s];
      if d.choice.Some? {
        res := AddSiblings(s, k.choices, res);
      } else {
        NoSiblings(k, s);
      }
      DependentsIs(k, s);
      StoreDeps(s, res);
    }

    lemma CachedDeps(s: string)
      requires Shape() && s in deps
      ensures s in k.syms && Ordered(k) && deps[s] == Dependents(k, s)
    {
    }

    method StoreDeps(s: string, r: set<string>)
      requires Shape() && s in k.syms && r == Dependents(k, s)
      modifies this`deps
      ensures Shape()
    {
      hide SymVis, Val, Selection, ChoiceVis, Ordered, UsersFit, Dependents, Dep;
      deps := deps[s := r];
    }

    /** _add_dependent_ignore_siblings */
    method AddDependent(s: string, to: set<string>) returns (res: set<string>)
      requires Shape() && s in k.syms
      modifies this`deps
      ensures Shape() && res == to + AddIgnoring(k, s)
      decreases k.top - k.rank(s), 1
    {
      hide Shape, Ordered, UsersFit, Dependents, AddIgnoring, Dep;
      ShapeFits();
      DepIs(s);
      var todo := dep[s];
      res := to;
      ghost var done: set<string> := {};
      while todo != {}
        invariant Shape() && todo + done == Dep(k, s)
        invariant res == to + Gathered(k, s, done)
        decreases |todo|
      {
        var t :| t in todo;
        AboveIs(k, s, t);
        var more := GetDependent(t);
        GatherOne(k, s, done, t);
        res := res + {t} + more;
        todo, done := todo - {t}, done + {t};
      }
      GatheredAll(k, s);
    }

    lemma DepIs(s: string)
      requires Shape() && s in k.syms
      ensures s in dep && dep[s] == Dep(k, s)
    {
    }

    /** The loop over the other symbols of the choice */
    method AddSiblings(s: string, choices: seq<ChoiceDef>, to: set<string>) returns (res: set<string>)
      requires Shape() && s in k.syms && k.syms[s].choice.Some? && choices == k.choices
      modifies this`deps
      ensures Shape() && res == to + SiblingsGathered(k, s, Siblings(k, s))
      decreases k.top - k.rank(s), 2
    {
      hide Shape, Ordered, UsersFit, Dependents, AddIgnoring, Siblings;
      ShapeFits();
      MemberKnown(k, s);
      var ms := choices[k.syms[s].choice.value].members;
      res := to;
      var i := 0;
      while i < |ms|
        invariant 0 <= i <= |ms| && Shape()
        invariant res == to + SiblingsGathered(k, s, Others(ms[..i], s))
        decreases |ms| - i
      {
        ghost var before, after := Others(ms[..i], s), Others(ms[..i + 1], s);
        assert ms[..i + 1] == ms[..i] + [ms[i]];
        if ms[i] != s {
          assert ms[i] in ms;
          MemberIsSibling(k, s, ms[i]);
          SiblingRank(k, s, ms[i]);
          assert after == before + {ms[i]};
          GatherSibling(k, s, before, ms[i]);
          res := AddDependent(ms[i], res + {ms[i]});
        } else {
          assert after == before;
        }
        i := i + 1;
      }
      assert ms[..|ms|] == ms;
      SiblingsAreMembers(k, s);
    }

    // ---------- invalidation and user values ----------

    /** Symbol._invalidate */
    method Invalidate(s: string)
      requires Shape() && s in k.syms
      modifies this`value, this`vis, this`choiceVis, this`selection
      ensures Shape()
      ensures value == old(value) - Live(k, {s}) && vis == old(vis) - Live(k, {s})
      ensures choiceVis == old(choiceVis) - ChoicesOf(k, {s}) && selection == old(selection) - ChoicesOf(k, {s})
    {
      hide Ordered, UsersFit, Dependents, Dep, Live, ChoicesOf;
      var d := k.syms[s];
      LiveOne(k, s);
      if d.fixed.Some? { return; }
      if d.choice.Some? {
        choiceVis := choiceVis - {d.choice.value};
        selection := selection - {d.choice.value};
      }
      vis := vis - {s};
      value := value - {s};
    }

    /** The loop that invalidates a set of symbols */
    method InvalidateEach(a: set<string>)
      requires Shape() && a <= k.syms.Keys
      modifies this`value, this`vis, this`choiceVis, this`selection
      ensures Shape()
      ensures value == old(value) - Live(k, a) && vis == old(vis) - Live(k, a)
      ensures choiceVis == old(choiceVis) - ChoicesOf(k, a) && selection == old(selection) - ChoicesOf(k, a)
    {
      hide Shape, Live, ChoicesOf;
      var todo := a;
      ghost var done: set<string> := {};
      LiveNone(k);
      while todo != {}
        invariant Shape() && todo + done == a
        invariant value == old(value) - Live(k, done) && vis == old(vis) - Live(k, done)
        invariant choiceVis == old(choiceVis) - ChoicesOf(k, done) && selection == old(selection) - ChoicesOf(k, done)
        decreases |todo|
      {
        var s :| s in todo;
        Invalidate(s);
        LiveMore(k, done, {s});
        MinusTwice(old(value), Live(k, done), Live(k, {s}));
        MinusTwice(old(vis), Live(k, done), Live(k, {s}));
        MinusTwice(old(choiceVis), ChoicesOf(k, done), ChoicesOf(k, {s}));
        MinusTwice(old(selection), ChoicesOf(k, done), ChoicesOf(k, {s}));
        todo, done := todo - {s}, done + {s};
      }
    }

    /** _set_user_value_no_invalidate */
    method SetUserNoInvalidate(s: string, v: string)
      requires Shape() && s in k.syms
      modifies this`user
      ensures Shape() && user == SetUser(k, old(user), s, v)
    {
      hide Ordered, UsersFit, Dependents, Dep;
      UsersStillFit(k, user, s, v);
      var d := k.syms[s];
      if d.fixed.Some? || !d.isDefined || !Accepts(k, d.typ, v) { return; }
      ghost var before := user;
      user := user.(val := user.val[s := v]);
      if d.choice.Some? && TriType(d.typ) {
        var c := d.choice.value;
        if v == "y" {
          user := user.(selected := user.selected[c := s], mode := user.mode[c := YES]);
        } else if v == "m" {
          user := user.(selected := user.selected - {c}, mode := user.mode[c := MOD]);
        }
      }
      assert user == SetUser(k, before, s, v);
    }

    /** The caches after invalidating the symbols in a */
    ghost predicate Dropped(a: set<string>, value0: map<string, string>, vis0: map<string, Tri>,
                            choiceVis0: map<nat, Tri>, selection0: map<nat, Option<string>>)
      reads this`value, this`vis, this`choiceVis, this`selection
    {
      && value == value0 - Live(k, a) && vis == vis0 - Live(k, a)
      && choiceVis == choiceVis0 - ChoicesOf(k, a) && selection == selection0 - ChoicesOf(k, a)
    }

    /** set_user_value. The caches stay right; those of all symbols are dropped if the symbol is
        MODULES, otherwise those of its dependents. */
    method SetUserValue(s: string, v: string)
      requires Right() && s in k.syms
      modifies this
      ensures Right() && user == SetUser(k, old(user), s, v)
      ensures Dropped(if s == "MODULES" then k.syms.Keys else Reach(k, s), old(value), old(vis), old(choiceVis), old(selection))
    {
      hide Shape, Ordered, UsersFit, CachesRight, Dependents, SetUser, Live, ChoicesOf;
      RightFits();
      ghost var u := user;
      SetUserNoInvalidate(s, v);
      ShapeFits();
      if s == "MODULES" {
        InvalidateEach(k.syms.Keys);
        NothingLeft(k, u, user, old(value), old(vis), old(choiceVis), old(selection));
        return;
      }
      SetIsLocal(k, u, s, v);
      InvalidateReached(s, u);
    }

    /** unset_user_value. It does not treat MODULES in a special way, so after unsetting MODULES the
        caches are only sure to be right if that does not change whether there are modules. Otherwise
        they are right but for the symbols whose evaluation may meet an m, and their dependents. */
    method UnsetUserValue(s: string)
      requires Right() && s in k.syms
      modifies this
      ensures Shape() && user == UnsetUser(k, old(user), s)
      ensures Dropped(Reach(k, s), old(value), old(vis), old(choiceVis), old(selection))
      ensures s != "MODULES" || HasModules(k, old(user)) == HasModules(k, user) ==> Right()
      ensures forall a: set<string> :: Reach(k, s) <= a && Closed(k, a) && MeetsNoM(k, a) ==> RightBut(a)
    {
      hide Ordered, UsersFit, CachesRight, Dependents, Live, ChoicesOf, Dep, HasModules, UnsetUser;
      ghost var u := user;
      UsersStillFit(k, user, s, "");
      SetIsLocal(k, u, s, "");
      user := UnsetUser(k, user, s);
      InvalidateReached(s, u);
    }

    /** _invalidate and _invalidate_dependent, after the user values of s have changed from u. For
        MODULES that is enough only if there are modules as before. */
    method InvalidateReached(s: string, ghost u: Users)
      requires Shape() && s in k.syms && UsersFit(k, u) && CachesRight(k, u, value, vis, choiceVis, selection)
      requires SameOutside(k, u, user, Reach(k, s))
      modifies this`value, this`vis, this`choiceVis, this`selection, this`deps
      ensures Shape() && Dropped(Reach(k, s), old(value), old(vis), old(choiceVis), old(selection))
      ensures s != "MODULES" || HasModules(k, u) == HasModules(k, user) ==> Right()
      ensures forall a: set<string> :: Reach(k, s) <= a && Closed(k, a) && MeetsNoM(k, a) ==> RightBut(a)
    {
      hide Shape, Ordered, UsersFit, CachesRight, Dependents, Live, ChoicesOf, SameOutside, HasModules, Closed, MeetsNoM;
      ShapeFits();
      ReachIsKnown(k, s);
      Invalidate(s);
      var a := GetDependent(s);
      InvalidateEach(a);
      LiveMore(k, {s}, a);
      MinusTwice(old(value), Live(k, {s}), Live(k, a));
      MinusTwice(old(vis), Live(k, {s}), Live(k, a));
      MinusTwice(old(choiceVis), ChoicesOf(k, {s}), ChoicesOf(k, a));
      MinusTwice(old(selection), ChoicesOf(k, {s}), ChoicesOf(k, a));
      if s != "MODULES" || HasModules(k, u) == HasModules(k, user) {
        ChangesCompare(k, u, s, user);
        CachesSurvive(k, u, user, Reach(k, s), old(value), old(vis), old(choiceVis), old(selection));
      }
      hide RightBut;
      forall b: set<string> | Reach(k, s) <= b && Closed(k, b) && MeetsNoM(k, b)
        ensures RightBut(b)
      {
        RightOutside(s, u, b, old(value), old(vis), old(choiceVis), old(selection));
      }
    }

    /** What is cached for symbols and choices outside a is right. */
    ghost predicate RightBut(a: set<string>)
      reads this
    {
      Shape() && CachesRight(k, user, value - Live(k, a), vis - Live(k, a), choiceVis - ChoicesOf(k, a), selection - ChoicesOf(k, a))
    }

    lemma RightOutside(s: string, u: Users, a: set<string>, value0: map<string, string>, vis0: map<string, Tri>,
                       choiceVis0: map<nat, Tri>, selection0: map<nat, Option<string>>)
      requires Shape() && s in k.syms && UsersFit(k, u) && CachesRight(k, u, value0, vis0, choiceVis0, selection0)
      requires SameOutside(k, u, user, Reach(k, s)) && Dropped(Reach(k, s), value0, vis0, choiceVis0, selection0)
      requires Reach(k, s) <= a && Closed(k, a) && MeetsNoM(k, a)
      ensures RightBut(a)
    {
      ShapeFits();
      hide Shape, Ordered, UsersFit, CachesRight, Reach, Live, ChoicesOf, SameOutside, Closed, MeetsNoM;
      ModulesCompare(k, u, s, user, a);
      CachesSurvive(k, u, user, a, value0, vis0, choiceVis0, selection0);
      var r := Reach(k, s);
      assert r + a == a;
      LiveMore(k, r, a);
      MinusTwice(value0, Live(k, r), Live(k, a));
      MinusTwice(vis0, Live(k, r), Live(k, a));
      MinusTwice(choiceVis0, ChoicesOf(k, r), ChoicesOf(k, a));
      MinusTwice(selection0, ChoicesOf(k, r), ChoicesOf(k, a));
    }

    // ---------- loading ----------

    /** _unset_user_value_no_recursive_invalidate */
    method UnsetOne(s: string)
      requires Shape() && s in k.syms
      modifies this`user, this`value, this`vis, this`choiceVis, this`selection
      ensures Shape() && user == UnsetUser(k, old(user), s)
      ensures value == old(value) - Live(k, {s}) && vis == old(vis) - Live(k, {s})
      ensures choiceVis == old(choiceVis) - ChoicesOf(k, {s}) && selection == old(selection) - ChoicesOf(k, {s})
    {
      hide Ordered, UsersFit, Dependents, Dep, Live, ChoicesOf, UnsetUser;
      Invalidate(s);
      UsersStillFit(k, user, s, "");
      user := UnsetUser(k, user, s);
    }

    /** unset_user_values */
    method UnsetUserValues()
      requires Shape()
      modifies this
      ensures Shape() && user == Unset(k, old(user), k.syms.Keys)
      ensures value == old(value) - Live(k, k.syms.Keys) && vis == old(vis) - Live(k, k.syms.Keys)
      ensures choiceVis == old(choiceVis) - ChoicesOf(k, k.syms.Keys) && selection == old(selection) - ChoicesOf(k, k.syms.Keys)
    {
      hide Shape, Ordered, UsersFit, Live, ChoicesOf, UnsetUser, Unset;
      var todo := k.syms.Keys;
      ghost var done: set<string> := {};
      LiveNone(k);
      UnsetNone(k, user);
      while todo != {}
        invariant Shape() && todo + done == k.syms.Keys && user == Unset(k, old(user), done)
        invariant value == old(value) - Live(k, done) && vis == old(vis) - Live(k, done)
        invariant choiceVis == old(choiceVis) - ChoicesOf(k, done) && selection == old(selection) - ChoicesOf(k, done)
        decreases |todo|
      {
        var s :| s in todo;
        ShapeFits();
        UnsetMore(k, old(user), done, s);
        UnsetOne(s);
        LiveMore(k, done, {s});
        MinusTwice(old(value), Live(k, done), Live(k, {s}));
        MinusTwice(old(vis), Live(k, done), Live(k, {s}));
        MinusTwice(old(choiceVis), ChoicesOf(k, done), ChoicesOf(k, {s}));
        MinusTwice(old(selection), ChoicesOf(k, done), ChoicesOf(k, {s}));
        todo, done := todo - {s}, done + {s};
      }
    }

    /** load_config for lines that assign values to symbols; a line that says that a symbol is not
        set assigns n. The caches are right afterwards. */
    method LoadConfig(lines: seq<Assignment>, replace: bool)
      requires Right()
      modifies this
      ensures Right()
      ensures user == SetAll(k, if replace then Unset(k, old(user), k.syms.Keys) else old(user), lines)
    {
      hide Shape, Ordered, UsersFit, CachesRight, Dependents, Live, ChoicesOf, SetUser, Unset;
      RightFits();
      if replace {
        UnsetUserValues();
      } else {
        InvalidateEach(k.syms.Keys);
      }
      ghost var start := user;
      var i := 0;
      while i < |lines|
        invariant 0 <= i <= |lines| && Shape() && user == SetAll(k, start, lines[..i])
        modifies this`user
        decreases |lines| - i
      {
        assert lines[..i + 1][..i] == lines[..i];
        if lines[i].name in k.syms { SetUserNoInvalidate(lines[i].name, lines[i].value); }
        i := i + 1;
      }
      assert lines[..|lines|] == lines;
      ShapeFits();
      NothingLeft(k, old(user), user, old(value), old(vis), old(choiceVis), old(selection));
    }
  }

  /** A choice without members selects nothing, whatever its mode. */
  lemma NothingSelected(k: Kconf, u: Users, c: nat)
    requires Ordered(k) && UsersFit(k, u) && c < |k.choices| && k.choices[c].members == []
    ensures Selection(k, u, c) == FromDefaults(k, u, c) == None && c !in u.selected
  {
    hide Mode;
    assert c !in u.selected;
  }

  lemma VisIsCapped(k: Kconf, u: Users, s: string)
    requires Ordered(k) && UsersFit(k, u) && s in k.syms
    ensures k.syms[s].typ != E.Tristate ==> SymVis(k, u, s) != MOD
  {
  }

  lemma UserFits(k: Kconf, u: Users, s: string)
    requires UsersFit(k, u) && s in u.val
    ensures s in k.syms && Accepts(k, k.syms[s].typ, u.val[s])
    ensures k.syms[s].typ == E.Boolean ==> TriOfName(u.val[s]) != MOD
  {
  }

  lemma MemberOf(k: Kconf, c: nat, m: string)
    requires Ordered(k) && c < |k.choices| && m in k.choices[c].members
    ensures m in k.syms && k.syms[m].choice == Some(c) && k.rank(m) == k.choiceRank(c) && k.syms[m].fixed.None?
  {
    assert ChoiceOrdered(k, c) && SymOrdered(k, m);
  }

  lemma VisCases(k: Kconf, u: Users, s: string)
    requires Ordered(k) && UsersFit(k, u) && s in k.syms
    ensures var d, r := k.syms[s], k.rank(s);
      && (d.choice.None? ==> SymVis(k, u, s) == Capped(Strongest(k, u, d.prompts, r), d.typ))
      && (d.choice.Some? && d.choice.value < |k.choices| ==>
            var own, outer := Up(k, u, Strongest(k, u, d.prompts, r), r), Up(k, u, ChoiceVis(k, u, d.choice.value), r);
            SymVis(k, u, s) == Capped(Min(own, outer), d.typ))
  {
  }

  lemma DefiniteIsNotM(e: Tree, v: Valuation)
    requires Definite(e)
    ensures Value(e, v) != MOD
  {
  }

  lemma UpAtZero(k: Kconf, u: Users, t: Tri)
    requires Ordered(k) && UsersFit(k, u)
    ensures Up(k, u, t, 0) == t
  {
  }

  lemma EvalAtZero(k: Kconf, u: Users, e: Option<Tree>)
    requires Ordered(k) && UsersFit(k, u)
    ensures Askable(e, 0) ==> Eval(k, u, e, 0) != MOD
  {
    if e.Some? && Definite(e.value) { DefiniteIsNotM(e.value, Look(k, u, 0)); }
  }

  lemma ChoiceKnown(k: Kconf, c: nat)
    requires Ordered(k) && c < |k.choices|
    ensures k.choiceRank(c) > 0 && Known(k, ChoiceReads(k.choices[c]), k.choiceRank(c))
    ensures ConditionNames(k.choices[c].prompts) <= ChoiceReads(k.choices[c])
  {
    assert ChoiceOrdered(k, c);
  }

  /** What the calculation of a symbol that is not special reads. */
  lemma SymKnown(k: Kconf, s: string)
    requires Ordered(k) && s in k.syms
    ensures var d, r := k.syms[s], k.rank(s);
      && Known(k, ConditionNames(d.prompts), r) && Known(k, DefaultNames(d.defaults), r)
      && Known(k, Names(d.rev), r) && Known(k, RangeNames(d.ranges), r)
      && (r == 0 ==> Plain(d) && (d.fixed.Some? || d.typ != E.Tristate))
  {
    assert SymOrdered(k, s);
    var d := k.syms[s];
    assert ConditionNames(d.prompts) + DefaultNames(d.defaults) + Names(d.rev) + RangeNames(d.ranges) <= Reads(k, d);
  }

  lemma MemberKnown(k: Kconf, s: string)
    requires Ordered(k) && s in k.syms && k.syms[s].choice.Some?
    ensures var c := k.syms[s].choice.value;
      c < |k.choices| && k.choices[c].members != [] && k.choiceRank(c) == k.rank(s) > 0
  {
    assert SymOrdered(k, s);
    assert ChoiceOrdered(k, k.syms[s].choice.value);
  }

  /** What an operand looks like to a reader above it. */
  lemma OperandSeen(k: Kconf, u: Users, o: Operand, bound: nat)
    requires Ordered(k) && UsersFit(k, u) && Known(k, OperandNames(o), bound)
    ensures o.Sym? ==> TriOf(o, Look(k, u, bound)) == TriSeen(k.syms[o.name], Val(k, u, o.name))
    ensures o.Sym? ==> StrOf(o, Look(k, u, bound)) == Val(k, u, o.name)
  {
    if o.Sym? && o != M { SeenIs(k, u, o.name, bound); }
    if o == M { MIsM(k, u); }
  }

  lemma SeenIs(k: Kconf, u: Users, n: string, bound: nat)
    requires Ordered(k) && UsersFit(k, u) && n in k.syms && k.rank(n) < bound
    ensures Look(k, u, bound).tri(n) == TriSeen(k.syms[n], Val(k, u, n)) && Look(k, u, bound).str(n) == Val(k, u, n)
  {
    hide Ordered, UsersFit, Val;
  }

  /** The symbol m has the value m. */
  lemma MIsM(k: Kconf, u: Users)
    requires Ordered(k) && UsersFit(k, u)
    ensures "m" in k.syms ==> Val(k, u, "m") == "m" && TriSeen(k.syms["m"], "m") == MOD
  {
    hide UsersFit, SymOrdered, ChoiceOrdered;
  }

  lemma {:induction false} ArgNames(args: seq<Tree>, i: nat)
    requires i < |args|
    ensures Names(args[i]) <= AllNames(args)
  {
    if i > 0 { ArgNames(args[1..], i - 1); }
  }

  // ---------- unions over symbols ----------

  /** What _add_dependent_ignore_siblings has collected after the symbols in done */
  ghost function Gathered(k: Kconf, s: string, done: set<string>): set<string>
    requires Ordered(k) && s in k.syms
  {
    set t, x | t in done && t in Dep(k, s) && x in {t} + DependentsAbove(k, s, t) :: x
  }

  lemma GatherOne(k: Kconf, s: string, done: set<string>, t: string)
    requires Ordered(k) && s in k.syms && t in Dep(k, s)
    ensures Gathered(k, s, done + {t}) == Gathered(k, s, done) + ({t} + DependentsAbove(k, s, t))
  {
    hide Ordered, Dep, DependentsAbove;
  }

  lemma GatheredAll(k: Kconf, s: string)
    requires Ordered(k) && s in k.syms
    ensures Gathered(k, s, Dep(k, s)) == AddIgnoring(k, s) && Gathered(k, s, {}) == {}
  {
    hide Ordered, Dep, DependentsAbove;
    var all, g := AddIgnoring(k, s), Gathered(k, s, Dep(k, s));
    forall x | x in g
      ensures x in all
    {
      var t :| t in Dep(k, s) && x in {t} + DependentsAbove(k, s, t);
      assert x == t || x in DependentsAbove(k, s, t);
    }
    forall x | x in all
      ensures x in g
    {
      if x in Dep(k, s) {
        assert x in {x} + DependentsAbove(k, s, x);
      } else {
        var t :| t in Dep(k, s) && x in DependentsAbove(k, s, t);
        assert x in {t} + DependentsAbove(k, s, t);
      }
    }
  }

  ghost function SiblingsGathered(k: Kconf, s: string, done: set<string>): set<string>
    requires Ordered(k) && s in k.syms
  {
    set t, x | t in done && t in Siblings(k, s) && x in {t} + AddSibling(k, s, t) :: x
  }

  lemma GatherSibling(k: Kconf, s: string, done: set<string>, t: string)
    requires Ordered(k) && s in k.syms && t in Siblings(k, s)
    ensures SiblingsGathered(k, s, done + {t}) == SiblingsGathered(k, s, done) + ({t} + AddSibling(k, s, t))
  {
    hide Ordered, Siblings, AddSibling;
  }

  lemma DependentsIs(k: Kconf, s: string)
    requires Ordered(k) && s in k.syms
    ensures Dependents(k, s) == AddIgnoring(k, s) + SiblingsGathered(k, s, Siblings(k, s))
    ensures SiblingsGathered(k, s, {}) == {}
  {
    hide Ordered, Siblings, AddSibling, AddIgnoring;
    var all, g := Dependents(k, s), SiblingsGathered(k, s, Siblings(k, s));
    forall x | x in g
      ensures x in all
    {
      var t :| t in Siblings(k, s) && x in {t} + AddSibling(k, s, t);
      assert x == t || x in AddSibling(k, s, t);
    }
    forall x | x in all && x !in AddIgnoring(k, s)
      ensures x in g
    {
      if x in Siblings(k, s) {
        assert x in {x} + AddSibling(k, s, x);
      } else {
        var t :| t in Siblings(k, s) && x in AddSibling(k, s, t);
        assert x in {t} + AddSibling(k, s, t);
      }
    }
  }

  lemma NoSiblings(k: Kconf, s: string)
    requires Ordered(k) && s in k.syms && k.syms[s].choice.None?
    ensures SiblingsGathered(k, s, Siblings(k, s)) == {}
  {
    hide Ordered, AddSibling;
  }

  lemma MemberIsSibling(k: Kconf, s: string, t: string)
    requires Ordered(k) && s in k.syms && k.syms[s].choice.Some? && k.syms[s].choice.value < |k.choices|
    requires t in k.choices[k.syms[s].choice.value].members && t != s
    ensures t in Siblings(k, s)
  {
    MemberOf(k, k.syms[s].choice.value, t);
  }

  ghost function Others(ms: seq<string>, s: string): set<string> {
    set t | t in ms && t != s
  }

  lemma SiblingsAreMembers(k: Kconf, s: string)
    requires Ordered(k) && s in k.syms && k.syms[s].choice.Some?
    ensures k.syms[s].choice.value < |k.choices|
    ensures Siblings(k, s) == Others(k.choices[k.syms[s].choice.value].members, s)
  {
    MemberKnown(k, s);
    forall t | t in Siblings(k, s)
      ensures t in k.choices[k.syms[s].choice.value].members
    {
      assert SymOrdered(k, t);
    }
    forall t | t in k.choices[k.syms[s].choice.value].members && t != s
      ensures t in Siblings(k, s)
    {
      MemberIsSibling(k, s, t);
    }
  }

  // ---------- what invalidation leaves ----------

  /** The symbols that _invalidate does something for. */
  function Live(k: Kconf, a: set<string>): set<string> {
    set s | s in a && s in k.syms && k.syms[s].fixed.None?
  }

  function ChoicesOf(k: Kconf, a: set<string>): set<nat> {
    set s | s in a && s in k.syms && k.syms[s].fixed.None? && k.syms[s].choice.Some? :: k.syms[s].choice.value
  }

  lemma LiveOne(k: Kconf, s: string)
    requires s in k.syms
    ensures Live(k, {s}) == if k.syms[s].fixed.None? then {s} else {}
    ensures ChoicesOf(k, {s}) == if k.syms[s].fixed.None? && k.syms[s].choice.Some? then {k.syms[s].choice.value} else {}
  {
  }

  lemma LiveNone(k: Kconf)
    ensures Live(k, {}) == {} && ChoicesOf(k, {}) == {}
  {
  }

  lemma LiveMore(k: Kconf, a: set<string>, b: set<string>)
    ensures Live(k, a + b) == Live(k, a) + Live(k, b)
    ensures ChoicesOf(k, a + b) == ChoicesOf(k, a) + ChoicesOf(k, b)
  {
  }

  lemma MinusTwice<K, V>(m: map<K, V>, a: set<K>, b: set<K>)
    ensures m - a - b == m - (a + b)
  {
  }

  lemma ReachIsKnown(k: Kconf, s: string)
    requires Ordered(k) && s in k.syms
    ensures Dependents(k, s) <= k.syms.Keys
  {
    hide Ordered, Dependents;
    forall t | t in Dependents(k, s)
      ensures t in k.syms
    {
      DependentsRankAbove(k, s, t);
    }
  }

  lemma MembersSurvive(k: Kconf, a: set<string>, c: nat)
    requires Ordered(k) && c < |k.choices| && k.choices[c].members != [] && c !in ChoicesOf(k, a)
    ensures Away(k, a, c)
  {
    hide Ordered;
    forall m | m in k.choices[c].members
      ensures m !in a
    {
      MemberOf(k, c, m);
    }
  }

  /** What was right and is outside the reach of a change is right afterwards. */
  lemma CachesSurvive(k: Kconf, u: Users, v: Users, a: set<string>, value: map<string, string>, vis: map<string, Tri>,
                      choiceVis: map<nat, Tri>, selection: map<nat, Option<string>>)
    requires Comparable(k, u, v, a) && CachesRight(k, u, value, vis, choiceVis, selection)
    ensures CachesRight(k, v, value - Live(k, a), vis - Live(k, a), choiceVis - ChoicesOf(k, a), selection - ChoicesOf(k, a))
  {
    hide Ordered, UsersFit, Comparable, SymVis, ChoiceVis, Selection, SameLook, ChoicesOf;
    ComparableFits(k, u, v, a);
    forall s | s in value - Live(k, a)
      ensures Val(k, v, s) == Val(k, u, s)
    {
      if s !in a { ValSame(k, u, v, a, s); }
    }
    forall s | s in vis - Live(k, a) && AttendedSymbol(k, s)
      ensures SymVis(k, v, s) == SymVis(k, u, s)
    {
      if k.syms[s].fixed.None? {
        LookSame(k, u, v, a, k.rank(s));
        SymVisSame(k, u, v, a, s);
      } else {
        SteadySymbol(k, u, v, s);
      }
    }
    forall c: nat | c < |k.choices| && c !in ChoicesOf(k, a)
      ensures Attended(k, c) ==> ChoiceVis(k, v, c) == ChoiceVis(k, u, c)
      ensures Selection(k, v, c) == Selection(k, u, c)
    {
      if k.choices[c].members != [] {
        MembersSurvive(k, a, c);
        LookSame(k, u, v, a, k.choiceRank(c));
        ChoiceVisSame(k, u, v, a, c);
        SelectionSame(k, u, v, a, c);
      } else {
        EmptyChoiceStays(k, u, v, c);
      }
    }
  }

  lemma EmptyChoiceStays(k: Kconf, u: Users, v: Users, c: nat)
    requires Ordered(k) && UsersFit(k, u) && UsersFit(k, v) && c < |k.choices| && k.choices[c].members == []
    ensures Attended(k, c) ==> ChoiceVis(k, v, c) == ChoiceVis(k, u, c)
    ensures Selection(k, v, c) == Selection(k, u, c)
  {
    hide Ordered, UsersFit, ChoiceVis, Selection;
    NothingSelected(k, u, c);
    NothingSelected(k, v, c);
    if Attended(k, c) { SteadyChoice(k, u, v, c); }
  }

  /** Invalidating every symbol leaves nothing that could be wrong. */
  lemma NothingLeft(k: Kconf, u: Users, v: Users, value: map<string, string>, vis: map<string, Tri>,
                    choiceVis: map<nat, Tri>, selection: map<nat, Option<string>>)
    requires Ordered(k) && UsersFit(k, u) && UsersFit(k, v) && CachesRight(k, u, value, vis, choiceVis, selection)
    ensures var a := k.syms.Keys;
      CachesRight(k, v, value - Live(k, a), vis - Live(k, a), choiceVis - ChoicesOf(k, a), selection - ChoicesOf(k, a))
  {
    hide Ordered, UsersFit, SymVis, ChoiceVis, Selection, ChoicesOf;
    forall s | s in vis && s !in Live(k, k.syms.Keys) && AttendedSymbol(k, s)
      ensures SymVis(k, v, s) == SymVis(k, u, s)
    {
      SteadySymbol(k, u, v, s);
    }
    forall c: nat | c < |k.choices| && c !in ChoicesOf(k, k.syms.Keys)
      ensures Attended(k, c) ==> ChoiceVis(k, v, c) == ChoiceVis(k, u, c)
      ensures Selection(k, v, c) == Selection(k, u, c)
    {
      if k.choices[c].members != [] {
        MemberOf(k, c, k.choices[c].members[0]);
        MembersSurvive(k, k.syms.Keys, c);
        assert false;
      }
      EmptyChoiceStays(k, u, v, c);
    }
  }

  // ---------- loading ----------

  /** A line of a .config file */
  datatype Assignment = Assignment(name: string, value: string)

  function SetAll(k: Kconf, u: Users, lines: seq<Assignment>): Users {
    if lines == [] then u
    else
      var v, line := SetAll(k, u, lines[..|lines| - 1]), lines[|lines| - 1];
      if line.name in k.syms then SetUser(k, v, line.name, line.value) else v
  }

  /** The user values without those of the symbols in a and of their choices */
  function Unset(k: Kconf, u: Users, a: set<string>): Users {
    Users(u.val - a, u.selected - ChoicesOf(k, a), u.mode - ChoicesOf(k, a))
  }

  lemma UnsetNone(k: Kconf, u: Users)
    ensures Unset(k, u, {}) == u
  {
    LiveNone(k);
    assert u.val - {} == u.val && u.selected - {} == u.selected && u.mode - {} == u.mode;
  }

  lemma FixedIsNoMember(k: Kconf, s: string)
    requires Ordered(k) && s in k.syms
    ensures k.syms[s].fixed.Some? ==> k.syms[s].choice.None?
  {
    assert SymOrdered(k, s);
  }

  lemma UnsetMore(k: Kconf, u: Users, a: set<string>, s: string)
    requires Ordered(k) && s in k.syms
    ensures Unset(k, u, a + {s}) == UnsetUser(k, Unset(k, u, a), s)
  {
    FixedIsNoMember(k, s);
    LiveOne(k, s);
    LiveMore(k, a, {s});
    hide *;
    var cs, c := ChoicesOf(k, a), ChoicesOf(k, {s});
    MinusTwice(u.val, a, {s});
    MinusTwice(u.selected, cs, c);
    MinusTwice(u.mode, cs, c);
    UnsetIs(k, u, a);
    UnsetIs(k, u, a + {s});
    UnsetUserIs(k, Unset(k, u, a), s);
  }

  lemma UnsetIs(k: Kconf, u: Users, a: set<string>)
    ensures Unset(k, u, a) == Users(u.val - a, u.selected - ChoicesOf(k, a), u.mode - ChoicesOf(k, a))
  {
  }

  lemma MinusNothing<K, V>(m: map<K, V>)
    ensures m - {} == m
  {
  }

  lemma UnsetUserIs(k: Kconf, u: Users, s: string)
    requires Ordered(k) && s in k.syms
    ensures UnsetUser(k, u, s) == Users(u.val - {s}, u.selected - ChoicesOf(k, {s}), u.mode - ChoicesOf(k, {s}))
  {
    FixedIsNoMember(k, s);
    LiveOne(k, s);
    MinusNothing(u.selected);
    MinusNothing(u.mode);
    hide Ordered, ChoicesOf, Live, SymOrdered;
  }

  lemma FixedValues(k: Kconf, u: Users, value: map<string, string>)
    requires Ordered(k) && UsersFit(k, u)
    requires forall s :: s in value ==> s in k.syms && k.syms[s].fixed == Some(value[s])
    ensures forall s :: s in value ==> value[s] == Val(k, u, s)
  {
  }

  /** The symbols among done that read n */
  ghost function DepAmong(k: Kconf, done: set<string>, n: string): set<string> {
    set s | s in done && s in k.syms && n in Reads(k, k.syms[s])
  }

  lemma ReadsKnown(k: Kconf, s: string)
    requires Ordered(k) && s in k.syms
    ensures Reads(k, k.syms[s]) <= k.syms.Keys
  {
    hide Reads;
    assert SymOrdered(k, s);
  }

  /** r is dep with s added for the names in seen. */
  ghost predicate Added(dep: map<string, set<string>>, r: map<string, set<string>>, s: string, seen: set<string>) {
    r.Keys == dep.Keys && forall n :: n in dep ==> r[n] == if n in seen then dep[n] + {s} else dep[n]
  }

  /** The calls of add_expr_deps for one symbol */
  method AddExprDeps(names: set<string>, s: string, dep: map<string, set<string>>) returns (r: map<string, set<string>>)
    requires names <= dep.Keys
    ensures Added(dep, r, s, names)
  {
    r := dep;
    var todo := names;
    ghost var seen: set<string> := {};
    assert Added(dep, r, s, {});
    hide Added;
    while todo != {}
      invariant todo + seen == names && Added(dep, r, s, seen)
      decreases |todo|
    {
      var n :| n in todo;
      AddedMore(dep, r, s, seen, n);
      r := r[n := r[n] + {s}];
      todo, seen := todo - {n}, seen + {n};
    }
    assert seen == names;
  }

  lemma AddedMore(dep: map<string, set<string>>, r: map<string, set<string>>, s: string, seen: set<string>, n: string)
    requires Added(dep, r, s, seen) && n in dep
    ensures n in r && Added(dep, r[n := r[n] + {s}], s, seen + {n})
  {
  }

  /** dep is right as far as the symbols in done go. */
  ghost predicate Built(k: Kconf, dep: map<string, set<string>>, done: set<string>) {
    dep.Keys == k.syms.Keys && forall n :: n in dep ==> dep[n] == DepAmong(k, done, n)
  }

  lemma BuiltMore(k: Kconf, dep: map<string, set<string>>, r: map<string, set<string>>, done: set<string>, s: string)
    requires Built(k, dep, done) && s in k.syms && Added(dep, r, s, Reads(k, k.syms[s]))
    ensures Built(k, r, done + {s})
  {
    hide Reads;
  }

  lemma BuiltAll(k: Kconf, dep: map<string, set<string>>)
    requires Built(k, dep, k.syms.Keys)
    ensures forall n :: n in dep ==> dep[n] == Dep(k, n)
  {
    hide Reads;
  }

  /** _build_dep */
  method BuildDep(k: Kconf) returns (dep: map<string, set<string>>)
    requires Ordered(k)
    ensures dep.Keys == k.syms.Keys && forall n :: n in dep ==> dep[n] == Dep(k, n)
  {
    hide Ordered, Reads, Added, Dep, Built;
    dep := map n | n in k.syms :: {};
    BuiltNone(k, dep);
    var todo := k.syms.Keys;
    ghost var done: set<string> := {};
    while todo != {}
      invariant todo + done == k.syms.Keys && Built(k, dep, done)
      decreases |todo|
    {
      var s :| s in todo;
      ReadsKnown(k, s);
      BuiltKeys(k, dep, done);
      var r := AddExprDeps(Reads(k, k.syms[s]), s, dep);
      BuiltMore(k, dep, r, done, s);
      dep, todo, done := r, todo - {s}, done + {s};
    }
    assert done == k.syms.Keys;
    BuiltKeys(k, dep, done);
    BuiltAll(k, dep);
  }

  lemma BuiltNone(k: Kconf, dep: map<string, set<string>>)
    requires dep.Keys == k.syms.Keys && forall n :: n in dep ==> dep[n] == {}
    ensures Built(k, dep, {})
  {
    hide Reads;
  }

  lemma BuiltKeys(k: Kconf, dep: map<string, set<string>>, done: set<string>)
    requires Built(k, dep, done)
    ensures dep.Keys == k.syms.Keys
  {
  }

  // ---------- caches that go stale ----------

  lemma NotReached(k: Kconf, a: set<string>, c: nat)
    requires Ordered(k) && c < |k.choices| && k.choices[c].members == []
    ensures c !in ChoicesOf(k, a)
  {
    hide Ordered;
    forall s | s in k.syms
      ensures k.syms[s].choice != Some(c)
    {
      if k.syms[s].choice.Some? { MemberKnown(k, s); }
    }
  }

  /** The visibility of a choice without members, asked for before and after a symbol is set: the
      second answer is the first one again. It is right if the change reaches nothing that the
      prompts read; if the prompts are shown by one symbol, it is exactly if that keeps its value. */
  method AskChoiceTwice(config: Config, c: nat, s: string, v: string) returns (before: Tri, after: Tri)
    requires config.Right() && s in config.k.syms && c < |config.k.choices| && config.k.choices[c].members == []
    requires c !in config.choiceVis
    modifies config
    ensures config.Right() && config.user == SetUser(config.k, old(config.user), s, v)
    ensures UsersFit(config.k, old(config.user)) && before == ChoiceVis(config.k, old(config.user), c) && after == before
    ensures s != "MODULES" && ConditionNames(config.k.choices[c].prompts) !! Reach(config.k, s) ==>
      after == ChoiceVis(config.k, config.user, c)
    ensures forall n :: n in config.k.syms && ShownBy(config.k, config.k.choices[c].prompts, n, config.k.choiceRank(c)) ==>
      (after == ChoiceVis(config.k, config.user, c) <==> Val(config.k, config.user, n) == Val(config.k, old(config.user), n))
  {
    hide Ordered, UsersFit, CachesRight, Val, Reach, SetUser, Live, ChoicesOf, ChoiceVis, Dependents, Dep, ShownBy, ConditionNames;
    hide Config.Shape;
    config.RightFits();
    ghost var u, v' := config.user, SetUser(config.k, config.user, s, v);
    UsersStillFit(config.k, u, s, v);
    if s != "MODULES" {
      SetIsLocal(config.k, u, s, v);
      ChangesCompare(config.k, u, s, v');
      ModulesIsNotReached(config.k, s);
      if ConditionNames(config.k.choices[c].prompts) !! Reach(config.k, s) {
        UnreachedChoice(config.k, u, v', Reach(config.k, s), c);
      }
    }
    forall n | n in config.k.syms && ShownBy(config.k, config.k.choices[c].prompts, n, config.k.choiceRank(c))
      ensures ChoiceVis(config.k, v', c) == ChoiceVis(config.k, u, c) <==> Val(config.k, v', n) == Val(config.k, u, n)
    {
      ShownChoice(config.k, u, v', c, n);
    }
    before := config.ChoiceVisibility(c);
    NotReached(config.k, if s == "MODULES" then config.k.syms.Keys else Reach(config.k, s), c);
    config.SetUserValue(s, v);
    after := config.ChoiceVisibility(c);
  }

  /** The same for a special symbol. */
  method AskSymbolTwice(config: Config, n: string, s: string, v: string) returns (before: Tri, after: Tri)
    requires config.Right() && s in config.k.syms && n in config.k.syms && config.k.syms[n].fixed.Some?
    requires n !in config.vis
    modifies config
    ensures config.Right() && config.user == SetUser(config.k, old(config.user), s, v)
    ensures UsersFit(config.k, old(config.user)) && before == SymVis(config.k, old(config.user), n) && after == before
    ensures s != "MODULES" && ConditionNames(config.k.syms[n].prompts) !! Reach(config.k, s) ==>
      after == SymVis(config.k, config.user, n)
    ensures forall x :: x in config.k.syms && ShownBy(config.k, config.k.syms[n].prompts, x, config.k.rank(n)) ==>
      (after == SymVis(config.k, config.user, n) <==> Val(config.k, config.user, x) == Val(config.k, old(config.user), x))
  {
    hide Ordered, UsersFit, CachesRight, Val, Reach, SetUser, ChoicesOf, SymVis, Dependents, Dep, ShownBy, ConditionNames;
    hide Config.Shape;
    config.RightFits();
    ghost var u, v' := config.user, SetUser(config.k, config.user, s, v);
    UsersStillFit(config.k, u, s, v);
    if s != "MODULES" {
      SetIsLocal(config.k, u, s, v);
      ChangesCompare(config.k, u, s, v');
      ModulesIsNotReached(config.k, s);
      if ConditionNames(config.k.syms[n].prompts) !! Reach(config.k, s) {
        UnreachedSymbol(config.k, u, v', Reach(config.k, s), n);
      }
    }
    forall x | x in config.k.syms && ShownBy(config.k, config.k.syms[n].prompts, x, config.k.rank(n))
      ensures SymVis(config.k, v', n) == SymVis(config.k, u, n) <==> Val(config.k, v', x) == Val(config.k, u, x)
    {
      ShownSymbol(config.k, u, v', n, x);
    }
    before := config.SymVisibility(n);
    config.SetUserValue(s, v);
    after := config.SymVisibility(n);
  }

  /** The value of a symbol, asked for before and after another symbol is unset that it does not
      depend on: the second answer is the first one again. */
  method AskAroundUnset(config: Config, n: string, s: string) returns (before: string, after: string)
    requires config.Right() && s in config.k.syms && n in config.k.syms && Ordered(config.k) && n !in Live(config.k, Reach(config.k, s))
    modifies config
    ensures config.Shape() && config.user == UnsetUser(config.k, old(config.user), s)
    ensures UsersFit(config.k, old(config.user)) && before == Val(config.k, old(config.user), n) && after == before
  {
    hide Ordered, UsersFit, CachesRight, Val, Reach, UnsetUser, Live, ChoicesOf, HasModules, Dependents, Dep;
    config.RightFits();
    before := config.GetValue(n);
    config.UnsetUserValue(s);
    after := config.GetValue(n);
  }

  const NOBODY: Users := Users(map[], map[], map[])

  lemma DriverFacts(k: Kconf)
    requires ModulesAndDriver(k)
    ensures Ordered(k) && "MODULES" in k.syms && "DRIVER" in k.syms && UsersFit(k, NOBODY)
    ensures "DRIVER" !in Live(k, Reach(k, "MODULES"))
    ensures var u := SetUser(k, NOBODY, "MODULES", "y");
      && UsersFit(k, u) && Val(k, u, "DRIVER") == "m"
      && UnsetUser(k, u, "MODULES") == NOBODY && Val(k, NOBODY, "DRIVER") == "y"
  {
    var u := Users(map["MODULES" := "y"], map[], map[]);
    ModulesReachesFurther(k, u);
    hide Ordered, Reach, Val;
    assert SetUser(k, NOBODY, "MODULES", "y") == u;
    assert UnsetUser(k, u, "MODULES") == NOBODY;
  }

  /** MODULES is not treated specially when it is unset: the value cached for a tristate that does
      not read MODULES stays, and the next call returns it although it is now wrong. */
  method StaleAfterUnset(k: Kconf) returns (config: Config, before: string, after: string)
    requires ModulesAndDriver(k)
    ensures config.k == k && config.Shape() && config.user == NOBODY
    ensures UsersFit(k, config.user) && before == after == "m" && Val(k, config.user, "DRIVER") == "y"
  {
    DriverFacts(k);
    hide *;
    config := new Config(k);
    config.SetUserValue("MODULES", "y");
    before, after := AskAroundUnset(config, "DRIVER", "MODULES");
  }

  /** A switch, and what it shows: a choice without members, and a symbol from the environment. */
  ghost predicate SwitchAndShown(k: Kconf) {
    && k.syms == map["SWITCH" := SymDef(E.Boolean, true, [None], [], Leaf(Str("n")), [], None, None),
                     "HOST" := SymDef(E.String, true, [Some(Leaf(Sym("SWITCH")))], [], Leaf(Str("n")), [], None, Some("host"))]
    && k.choices == [ChoiceDef(E.Boolean, [Some(Leaf(Sym("SWITCH")))], [], [], false)]
    && k.rank("SWITCH") == 0 && k.rank("HOST") == 1 && k.choiceRank(0) == 1 && k.top == 1
  }

  lemma SwitchAndShownOrdered(k: Kconf)
    requires SwitchAndShown(k)
    ensures Ordered(k) && ShownBy(k, k.choices[0].prompts, "SWITCH", 1) && ShownBy(k, k.syms["HOST"].prompts, "SWITCH", 1)
  {
    var host, choice := k.syms["HOST"], k.choices[0];
    assert host.prompts[1..] == [] && choice.prompts[1..] == [];
    assert ConditionNames(choice.prompts) == {"SWITCH"};
    assert Reads(k, k.syms["SWITCH"]) == {} && Reads(k, host) == {"SWITCH"} && ChoiceReads(choice) == {"SWITCH"};
    hide Reads, ChoiceReads, ConditionNames;
    assert SymOrdered(k, "SWITCH") && SymOrdered(k, "HOST") && ChoiceOrdered(k, 0);
  }

  lemma SwitchFollowsUser(k: Kconf, u: Users)
    requires SwitchAndShown(k) && Ordered(k) && UsersFit(k, u)
    ensures Val(k, u, "SWITCH") == "y" <==> "SWITCH" in u.val && u.val["SWITCH"] == "y"
  {
    hide Ordered, UsersFit;
    var d := k.syms["SWITCH"];
    assert d.prompts[..|d.prompts| - 1] == [];
    assert Strongest(k, u, [], 0) == NO;
    assert Strongest(k, u, d.prompts, 0) == YES;
    assert SymVis(k, u, "SWITCH") == YES;
    assert Eval(k, u, Some(d.rev), 0) == NO;
    assert Active(k, u, d.defaults, 0, 0) == None;
    if "SWITCH" in u.val { UserOf(k, u, "SWITCH"); }
    assert DefaultTri(k, u, d.defaults, 0) == NO;
    var own: Tri := if "SWITCH" in u.val then TriOfName(u.val["SWITCH"]) else NO;
    assert OwnTri(k, u, "SWITCH", YES) == own;
    assert PlainTri(k, u, "SWITCH", YES) == own;
    assert TriValue(k, u, "SWITCH") == own;
    assert Val(k, u, "SWITCH") == Name(own);
  }

  lemma SwitchFacts(k: Kconf)
    requires SwitchAndShown(k)
    ensures Ordered(k) && "SWITCH" in k.syms && "HOST" in k.syms && |k.choices| == 1 && UsersFit(k, NOBODY)
    ensures k.choices[0].members == [] && k.syms["HOST"].fixed.Some?
    ensures var u := SetUser(k, NOBODY, "SWITCH", "y");
      && UsersFit(k, u)
      && ChoiceVis(k, NOBODY, 0) == NO && ChoiceVis(k, u, 0) == YES
      && SymVis(k, NOBODY, "HOST") == NO && SymVis(k, u, "HOST") == YES
  {
    SwitchAndShownOrdered(k);
    hide Ordered, Val, ChoiceVis, SymVis;
    var u := SetUser(k, NOBODY, "SWITCH", "y");
    assert u == Users(map["SWITCH" := "y"], map[], map[]);
    SwitchFollowsUser(k, NOBODY);
    SwitchFollowsUser(k, u);
    ShownChoice(k, NOBODY, u, 0, "SWITCH");
    ShownChoice(k, u, NOBODY, 0, "SWITCH");
    ShownSymbol(k, NOBODY, u, "HOST", "SWITCH");
    ShownSymbol(k, u, NOBODY, "HOST", "SWITCH");
  }

  /** The cached visibility of a choice without members is wrong after the switch is set. */
  method StaleChoice(k: Kconf) returns (config: Config, before: Tri, after: Tri)
    requires SwitchAndShown(k)
    ensures config.k == k && config.Right() && before == after == NO
    ensures Ordered(k) && UsersFit(k, config.user) && |k.choices| == 1 && ChoiceVis(k, config.user, 0) == YES
  {
    SwitchFacts(k);
    hide *;
    config := new Config(k);
    before, after := AskChoiceTwice(config, 0, "SWITCH", "y");
  }

  /** So is that of a symbol that takes its value from the environment. */
  method StaleSpecial(k: Kconf) returns (config: Config, before: Tri, after: Tri)
    requires SwitchAndShown(k)
    ensures config.k == k && config.Right() && before == after == NO
    ensures Ordered(k) && UsersFit(k, config.user) && "HOST" in k.syms && SymVis(k, config.user, "HOST") == YES
  {
    SwitchFacts(k);
    hide *;
    config := new Config(k);
    before, after := AskSymbolTwice(config, "HOST", "SWITCH", "y");
  }

  // ---------- runs ----------

  datatype Call =
    | SetCall(symbol: string, text: string)
    | LoadCall(lines: seq<Assignment>, replace: bool)
    | UnsetCall(symbol: string)
    | ValueCall(symbol: string)
    | VisibilityCall(symbol: string)
    | SelectionCall(choice: nat)
    | ModeCall(choice: nat)
    | ChoiceVisibilityCall(choice: nat)

  /** The calls that keep the caches right and are answered from right ones: all but unsetting
      MODULES and asking for the visibilities that nothing invalidates. */
  predicate Possible(k: Kconf, c: Call) {
    match c
    case SetCall(s, _) => s in k.syms
    case LoadCall(_, _) => true
    case UnsetCall(s) => s in k.syms && s != "MODULES"
    case ValueCall(s) => s in k.syms
    case VisibilityCall(s) => AttendedSymbol(k, s)
    case SelectionCall(n) => n < |k.choices|
    case ModeCall(n) => Attended(k, n)
    case ChoiceVisibilityCall(n) => Attended(k, n)
  }

  /** The user values after a call */
  function Step(k: Kconf, u: Users, c: Call): Users
    requires Possible(k, c)
  {
    match c
    case SetCall(s, text) => SetUser(k, u, s, text)
    case LoadCall(lines, replace) => SetAll(k, if replace then Unset(k, u, k.syms.Keys) else u, lines)
    case UnsetCall(s) => UnsetUser(k, u, s)
    case _ => u
  }

  predicate AllPossible(k: Kconf, calls: seq<Call>) {
    forall i :: 0 <= i < |calls| ==> Possible(k, calls[i])
  }

  function UsersAfter(k: Kconf, u: Users, calls: seq<Call>): Users
    requires AllPossible(k, calls)
  {
    if calls == [] then u else Step(k, UsersAfter(k, u, calls[..|calls| - 1]), calls[|calls| - 1])
  }

  function SelectionName(r: Option<string>): string {
    if r.None? then "" else r.value
  }

  /** What the last call returns, evaluated without caches. */
  ghost function Answer(k: Kconf, u: Users, c: Call): string
    requires Ordered(k) && UsersFit(k, u) && Possible(k, c)
  {
    match c
    case ValueCall(s) => SymbolAnswer(k, u, c, s)
    case VisibilityCall(s) => SymbolAnswer(k, u, c, s)
    case SelectionCall(n) => ChoiceAnswer(k, u, c, n)
    case ModeCall(n) => ChoiceAnswer(k, u, c, n)
    case ChoiceVisibilityCall(n) => ChoiceAnswer(k, u, c, n)
    case _ => ""
  }

  ghost function SymbolAnswer(k: Kconf, u: Users, c: Call, s: string): string
    requires Ordered(k) && UsersFit(k, u) && s in k.syms
  {
    if c.ValueCall? then Val(k, u, s) else Name(SymVis(k, u, s))
  }

  ghost function ChoiceAnswer(k: Kconf, u: Users, c: Call, n: nat): string
    requires Ordered(k) && UsersFit(k, u) && n < |k.choices|
  {
    if c.SelectionCall? then SelectionName(Selection(k, u, n))
    else if c.ModeCall? then Name(Mode(k, u, n))
    else Name(ChoiceVis(k, u, n))
  }

  /** Each answer is the one that evaluation from scratch gives for the user values at that time. */
  ghost predicate AnswersRight(k: Kconf, u: Users, calls: seq<Call>, answers: seq<string>)
    requires Ordered(k) && AllPossible(k, calls)
  {
    if calls == [] then answers == []
    else
      var init, v := calls[..|calls| - 1], UsersAfter(k, u, calls[..|calls| - 1]);
      && |answers| == |calls| && UsersFit(k, v)
      && AnswersRight(k, u, init, answers[..|init|])
      && answers[|init|] == Answer(k, v, calls[|init|])
  }

  /** Any run of public calls. */
  method Run(config: Config, calls: seq<Call>) returns (answers: seq<string>)
    requires config.Right() && AllPossible(config.k, calls)
    modifies config
    ensures config.Right() && config.user == UsersAfter(config.k, old(config.user), calls)
    ensures AnswersRight(config.k, old(config.user), calls, answers)
  {
    hide Ordered, UsersFit, CachesRight, Step, Answer;
    config.RightFits();
    ghost var start := config.user;
    answers := [];
    var i := 0;
    while i < |calls|
      invariant 0 <= i <= |calls| && |answers| == i && config.Right() && Ordered(config.k)
      invariant config.user == UsersAfter(config.k, start, calls[..i])
      invariant AnswersRight(config.k, start, calls[..i], answers)
    {
      assert calls[..i + 1][..i] == calls[..i];
      var answer := Perform(config, calls[i]);
      assert (answers + [answer])[..i] == answers;
      answers := answers + [answer];
      i := i + 1;
    }
    assert calls[..|calls|] == calls;
  }

  /** One call */
  method Perform(config: Config, c: Call) returns (answer: string)
    requires config.Right() && Possible(config.k, c)
    modifies config
    ensures config.Right() && UsersFit(config.k, old(config.user))
    ensures answer == Answer(config.k, old(config.user), c)
    ensures config.user == Step(config.k, old(config.user), c)
  {
    hide Ordered, UsersFit, CachesRight, SetUser, UnsetUser, Unset, Val, SymVis, Selection, Mode, ChoiceVis, Reach, Live, ChoicesOf, HasModules;
    config.RightFits();
    answer := "";
    match c
    case SetCall(s, text) => config.SetUserValue(s, text);
    case LoadCall(lines, replace) => config.LoadConfig(lines, replace);
    case UnsetCall(s) => config.UnsetUserValue(s);
    case ValueCall(s) => answer := config.GetValue(s);
    case SelectionCall(n) =>
      var r := config.GetSelection(n);
      answer := SelectionName(r);
    case ModeCall(n) =>
      var t := config.GetMode(n);
      answer := Name(t);
    case ChoiceVisibilityCall(n) =>
      var t := config.ChoiceVisibility(n);
      answer := Name(t);
    case VisibilityCall(s) =>
      var t := config.SymVisibility(s);
      answer := Name(t);
  }
}
