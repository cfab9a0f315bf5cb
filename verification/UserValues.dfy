/** Consequences for whole configurations: typed assignments, choices and user values. */
module UserValues {
  import opened Tristates
  import opened Wrappers
  import opened Expressions
  import opened ExprTransform
  import opened Calculation

  // ---------- calculated tables are typed assignments ----------

  /** The assignment a calculated table defines. */
  ghost function EnvOf(w: World): Env {
    Env((id: nat) => if id < |w.defs| == |w.input| then Calc(w, id).value.tri else NO,
        (id: nat) => if id < |w.defs| == |w.input| then Calc(w, id).value.str else "n")
  }

  lemma SymReadsEnv(w: World, s: Sym, bound: nat)
    requires WellFormed(w) && BelowSym(w, s, bound, None)
    ensures SymTri(w, s, bound, None) == TriOf(s, EnvOf(w))
    ensures SymText(w, s, bound, None) == StrOf(s, EnvOf(w))
  {
    if s.Var? { CalcIsTyped(w, s.id); }
  }

  /** Evaluating an expression in a calculated table is evaluating it under a typed assignment, so
      every rewriting that is sound for those is sound for configurations. */
  lemma {:induction false} TrisIsEval(w: World, e: Expr, bound: nat)
    requires WellFormed(w) && Below(w, e, bound, None)
    ensures Tris(w, e, bound, None) == Eval(e, EnvOf(w))
  {
    match e
    case Symbol(s) => SymReadsEnv(w, s, bound);
    case Not(x) => TrisIsEval(w, x, bound);
    case Bin(_, l, r) => TrisIsEval(w, l, bound); TrisIsEval(w, r, bound);
    case Equal(a, b) => SymReadsEnv(w, a, bound); SymReadsEnv(w, b, bound);
    case Unequal(a, b) => SymReadsEnv(w, a, bound); SymReadsEnv(w, b, bound);
  }

  // ---------- what a change of input cannot reach ----------

  /** Two worlds over the same definitions that look the same to readers at rank bound. */
  ghost predicate SameSeen(w: World, v: World, bound: nat) {
    && WellFormed(w) && WellFormed(v)
    && v == w.(input := v.input)
    && (forall id: nat :: Seen(w, id, bound, None) == Seen(v, id, bound, None))
  }

  lemma SymUnaffected(w: World, v: World, s: Sym, bound: nat, on: Option<nat>)
    requires SameSeen(w, v, bound)
    ensures SymTri(w, s, bound, on) == SymTri(v, s, bound, on)
    ensures SymRaw(w, s, bound, on) == SymRaw(v, s, bound, on)
  {
    if s.Var? { assert Seen(w, s.id, bound, None) == Seen(v, s.id, bound, None); }
  }

  lemma {:induction false} TrisUnaffected(w: World, v: World, e: Expr, bound: nat, on: Option<nat>)
    requires SameSeen(w, v, bound)
    ensures Tris(w, e, bound, on) == Tris(v, e, bound, on)
  {
    match e
    case Symbol(s) => SymUnaffected(w, v, s, bound, on);
    case Not(x) => TrisUnaffected(w, v, x, bound, on);
    case Bin(_, l, r) => TrisUnaffected(w, v, l, bound, on); TrisUnaffected(w, v, r, bound, on);
    case Equal(a, b) => SymUnaffected(w, v, a, bound, on); SymUnaffected(w, v, b, bound, on);
    case Unequal(a, b) => SymUnaffected(w, v, a, bound, on); SymUnaffected(w, v, b, bound, on);
  }

  lemma TrisOptUnaffected(w: World, v: World, e: Option<Expr>, bound: nat, on: Option<nat>)
    requires SameSeen(w, v, bound)
    ensures TrisOpt(w, e, bound, on) == TrisOpt(v, e, bound, on)
  {
    if e.Some? { TrisUnaffected(w, v, e.value, bound, on); }
  }

  lemma {:induction false} StrongestUnaffected(w: World, v: World, es: seq<Option<Expr>>, bound: nat, on: Option<nat>)
    requires SameSeen(w, v, bound)
    ensures Strongest(w, es, bound, on) == Strongest(v, es, bound, on)
  {
    if es != [] {
      StrongestUnaffected(w, v, es[..|es| - 1], bound, on);
      TrisOptUnaffected(w, v, es[|es| - 1], bound, on);
    }
  }

  lemma {:induction false} ActiveDefaultUnaffected(w: World, v: World, d: Def, i: nat, bound: nat, on: Option<nat>)
    requires SameSeen(w, v, bound)
    ensures ActiveDefault(w, d, i, bound, on) == ActiveDefault(v, d, i, bound, on)
    decreases |d.defaults| - i
  {
    if i < |d.defaults| {
      TrisOptUnaffected(w, v, d.defaults[i].cond, bound, on);
      ActiveDefaultUnaffected(w, v, d, i + 1, bound, on);
    }
  }

  lemma MemberVisibleUnaffected(w: World, v: World, m: nat, bound: nat, c: nat)
    requires SameSeen(w, v, bound)
    ensures MemberVisible(w, m, bound, c) == MemberVisible(v, m, bound, c)
  {
    if m < |w.defs| { StrongestUnaffected(w, v, w.defs[m].prompts, bound, Some(c)); }
  }

  lemma {:induction false} FirstVisibleUnaffected(w: World, v: World, members: seq<nat>, i: nat, bound: nat, c: nat)
    requires SameSeen(w, v, bound)
    ensures FirstVisible(w, members, i, bound, c) == FirstVisible(v, members, i, bound, c)
    decreases |members| - i
  {
    if i < |members| {
      MemberVisibleUnaffected(w, v, members[i], bound, c);
      FirstVisibleUnaffected(w, v, members, i + 1, bound, c);
    }
  }

  lemma {:induction false} ChoiceDefaultUnaffected(w: World, v: World, c: nat, i: nat, bound: nat)
    requires SameSeen(w, v, bound) && c < |w.defs|
    ensures ChoiceDefaultD(w, c, i, bound) == ChoiceDefaultD(v, c, i, bound)
    decreases |w.defs[c].defaults| - i
  {
    var d := w.defs[c];
    if i >= |d.defaults| {
      FirstVisibleUnaffected(w, v, d.members, 0, bound, c);
    } else {
      TrisOptUnaffected(w, v, d.defaults[i].cond, bound, Some(c));
      var named := NamedSymbol(d.defaults[i].value);
      if named.Some? { MemberVisibleUnaffected(w, v, named.value, bound, c); }
      ChoiceDefaultUnaffected(w, v, c, i + 1, bound);
    }
  }

  /** The conditions of s and what its defaults give depend only on what s sees. */
  lemma ConditionsUnaffected(w: World, v: World, s: nat)
    requires s < |w.defs| && SameSeen(w, v, w.rank(s))
    ensures var d, r := w.defs[s], w.rank(s);
            && VisibleD(w, d, r, None) == VisibleD(v, d, r, None)
            && DirD(w, d, r) == DirD(v, d, r)
            && (forall x :: RevD(w, d, x, r) == RevD(v, d, x, r))
            && DefaultTri(w, d, r) == DefaultTri(v, d, r)
            && DefaultText(w, d, r) == DefaultText(v, d, r)
            && ActiveDefault(w, d, 0, r, None) == ActiveDefault(v, d, 0, r, None)
  {
    var d, r := w.defs[s], w.rank(s);
    StrongestUnaffected(w, v, d.prompts, r, None);
    TrisOptUnaffected(w, v, d.dirDep, r, None);
    if d.revDep.Some? { TrisUnaffected(w, v, d.revDep.value, r, None); }
    ActiveDefaultUnaffected(w, v, d, 0, r, None);
    var i := ActiveDefault(w, d, 0, r, None);
    if i.Some? {
      TrisUnaffected(w, v, d.defaults[i.value].value, r, None);
      TrisOptUnaffected(w, v, d.defaults[i.value].cond, r, None);
      if d.defaults[i.value].value.Symbol? { SymUnaffected(w, v, d.defaults[i.value].value.sym, r, None); }
    }
  }

  lemma PickUnaffected(w: World, v: World, s: nat)
    requires s < |w.defs| && SameSeen(w, v, w.rank(s)) && v.input[s].pick == w.input[s].pick
    ensures PickD(w, s, w.rank(s)) == PickD(v, s, w.rank(s))
  {
    ChoiceDefaultUnaffected(w, v, s, 0, w.rank(s));
    if w.input[s].pick.Some? { MemberVisibleUnaffected(w, v, w.input[s].pick.value, w.rank(s), s); }
  }

  /** u is the input of symbol k without the user mark of a choice that is selected anyway. */
  ghost predicate StaysOn(w: World, k: nat, u: Input)
    requires k < |w.defs| == |w.input|
  {
    && w.defs[k].isChoice && HasTri(w.defs[k]) && w.defs[k].choiceOf.None?
    && u == w.input[k].(given := false) && Calc(w, k).rev == YES
  }

  /** Two worlds over the same definitions whose input agrees below a rank, up to user marks of
      choices that are selected anyway. */
  ghost predicate AgreeBelow(w: World, v: World, bound: nat) {
    && WellFormed(w) && WellFormed(v)
    && v == w.(input := v.input)
    && (forall k :: 0 <= k < |w.defs| && w.rank(k) < bound ==> v.input[k] == w.input[k] || StaysOn(w, k, v.input[k]))
  }

  /** Changing the input of a symbol never reaches symbols of lower rank. */
  lemma {:induction false} CalcUnaffected(w: World, v: World, s: nat)
    requires s < |w.defs| && AgreeBelow(w, v, w.rank(s) + 1)
    ensures Calc(w, s) == Calc(v, s)
    decreases w.rank(s), 1
  {
    var d, r := w.defs[s], w.rank(s);
    SeenUnaffected(w, v, r);
    ConditionsUnaffected(w, v, s);
    if d.choiceOf.Some? { assert Seen(w, d.choiceOf.value, r, None) == Seen(v, d.choiceOf.value, r, None); }
    if d.isChoice { PickUnaffected(w, v, s); }
    var visible := VisibleD(w, d, r, None);
    var rev := RevD(w, d, visible, r);
    if v.input[s] != w.input[s] {
      assert TriD(w, s, visible, rev) == TriD(v, s, visible, rev) == YES;
      return;
    }
    assert OwnTri(w, s, visible) == OwnTri(v, s, visible);
    assert TriD(w, s, visible, rev) == TriD(v, s, visible, rev);
    assert TextD(w, s, visible) == TextD(v, s, visible);
    assert WrittenD(w, s, visible, rev) == WrittenD(v, s, visible, rev);
  }

  lemma {:induction false} SeenUnaffected(w: World, v: World, bound: nat)
    requires AgreeBelow(w, v, bound)
    ensures SameSeen(w, v, bound)
    decreases bound, 0
  {
    forall id: nat
      ensures Seen(w, id, bound, None) == Seen(v, id, bound, None)
    {
      if id < |w.defs| && w.rank(id) < bound { CalcUnaffected(w, v, id); }
    }
  }

  // ---------- choices ----------

  /** What menu_finalize makes sure of by adding the choice to the conditions of its members (for
      members that are not tristate, that the choice is y): a member is visible at most as strongly
      as the choice is on. */
  ghost predicate BoundedByChoice(w: World, m: nat)
    requires m < |w.defs| == |w.input| && w.defs[m].choiceOf.Some? && w.defs[m].choiceOf.value < |w.defs|
  {
    var c := Calc(w, w.defs[m].choiceOf.value).value.tri;
    Calc(w, m).visible <= c
  }

  // ---------- what a choice can select ----------

  /** No member would be visible if the choice were on. */
  ghost predicate NoVisibleMember(w: World, c: nat)
    requires c < |w.defs|
  {
    forall m :: m in w.defs[c].members ==> MemberVisible(w, m, w.rank(c), c) == NO
  }

  lemma {:induction false} FirstVisibleExists(w: World, members: seq<nat>, i: nat, bound: nat, c: nat, m: nat)
    requires i <= |members| && m in members[i..] && MemberVisible(w, m, bound, c) != NO
    ensures FirstVisible(w, members, i, bound, c).Some?
    decreases |members| - i
  {
    if MemberVisible(w, members[i], bound, c) == NO {
      assert members[i..][1..] == members[i + 1..] && members[i] != m;
      FirstVisibleExists(w, members, i + 1, bound, c, m);
    }
  }

  lemma {:induction false} DefaultExists(w: World, c: nat, i: nat, m: nat)
    requires c < |w.defs| && m in w.defs[c].members && MemberVisible(w, m, w.rank(c), c) != NO
    ensures ChoiceDefaultD(w, c, i, w.rank(c)).Some?
    decreases |w.defs[c].defaults| - i
  {
    if i >= |w.defs[c].defaults| {
      assert w.defs[c].members[0..] == w.defs[c].members;
      FirstVisibleExists(w, w.defs[c].members, 0, w.rank(c), c, m);
    } else {
      DefaultExists(w, c, i + 1, m);
    }
  }

  /** A choice with a visible member selects one, so it stays on. */
  lemma SelectsSomething(w: World, c: nat, m: nat)
    requires c < |w.defs| == |w.input| && m in w.defs[c].members && MemberVisible(w, m, w.rank(c), c) != NO
    ensures PickD(w, c, w.rank(c)).Some?
  {
    DefaultExists(w, c, 0, m);
  }

  lemma {:induction false} FirstVisibleIsMember(w: World, members: seq<nat>, i: nat, bound: nat, c: nat)
    ensures var m := FirstVisible(w, members, i, bound, c);
            m.Some? ==> m.value in members && MemberVisible(w, m.value, bound, c) != NO
    decreases |members| - i
  {
    if i < |members| { FirstVisibleIsMember(w, members, i + 1, bound, c); }
  }

  lemma {:induction false} ChoiceDefaultIsMember(w: World, c: nat, i: nat)
    requires c < |w.defs| == |w.input| && ChoiceBelow(w, c)
    ensures var m := ChoiceDefaultD(w, c, i, w.rank(c));
            m.Some? ==> m.value in w.defs[c].members && MemberVisible(w, m.value, w.rank(c), c) != NO
    decreases |w.defs[c].defaults| - i
  {
    if i < |w.defs[c].defaults| {
      assert w.defs[c].defaults[i] in w.defs[c].defaults;
      ChoiceDefaultIsMember(w, c, i + 1);
    } else {
      FirstVisibleIsMember(w, w.defs[c].members, 0, w.rank(c), c);
    }
  }

  /** A choice selects nothing exactly if there is nothing to select. */
  lemma NothingToSelect(w: World, c: nat)
    requires Acyclic(w) && c < |w.defs| && w.defs[c].isChoice && w.defs[c].typ != Unknown
    ensures |w.input| == |w.defs| && (PickD(w, c, w.rank(c)).None? <==> NoVisibleMember(w, c))
  {
    assert SymbolBelow(w, c);
    hide Acyclic, SymbolBelow, MemberVisible;
    ChoiceDefaultIsMember(w, c, 0);
    if m :| m in w.defs[c].members && MemberVisible(w, m, w.rank(c), c) != NO {
      SelectsSomething(w, c, m);
    }
  }

  // ---------- members ----------

  /** The simple facts about a choice value and its choice. */
  lemma Family(w: World, m: nat)
    requires Acyclic(w) && m < |w.defs| && w.defs[m].choiceOf.Some? && w.defs[m].typ != Unknown
    ensures WellFormed(w)
    ensures w.defs[m].choiceOf.value < |w.defs| && w.defs[m].defaults == [] && HasTri(w.defs[m]) && !w.defs[m].isChoice
    ensures var c := w.defs[m].choiceOf.value;
            && w.rank(c) < w.rank(m) && m in w.defs[c].members
            && w.defs[c].isChoice && w.defs[c].typ != Unknown && HasTri(w.defs[c]) && w.defs[c].choiceOf.None?
  {
    assert SymbolBelow(w, m);
    assert SymbolBelow(w, w.defs[m].choiceOf.value);
  }

  /** A fully visible member is on when it is selected, any other follows the user up to its
      visibility. */
  lemma MemberValue(w: World, m: nat)
    requires Acyclic(w) && m < |w.defs| && w.defs[m].choiceOf.Some? && w.defs[m].typ != Unknown
    requires w.defs[m].choiceOf.value < |w.defs|
    ensures var visible := Calc(w, m).visible;
            Calc(w, m).value.tri ==
              if visible == YES then OfBool(Calc(w, w.defs[m].choiceOf.value).value.pick == Some(m))
              else if visible == MOD && w.input[m].given then Min(w.input[m].tri, MOD)
              else NO
  {
    hide Acyclic;
    Family(w, m);
    CalcIsTyped(w, m);
    var d, visible := w.defs[m], Calc(w, m).visible;
    assert ActiveDefault(w, d, 0, w.rank(m), None) == None;
    assert DefaultTri(w, d, w.rank(m)) == NO;
    assert RevD(w, d, visible, w.rank(m)) == NO;
    assert Calc(w, m).value.tri == TriD(w, m, visible, NO);
    if visible == MOD {
      assert d.typ == Tristate && w.mv != NO;
      assert OwnTri(w, m, visible) == if w.input[m].given then Min(w.input[m].tri, MOD) else NO;
    } else if visible == NO {
      assert OwnTri(w, m, visible) == NO;
    }
    assert visible == YES ==> TriD(w, m, visible, NO) == OfBool(Calc(w, d.choiceOf.value).value.pick == Some(m));
  }

  /** Only a choice that is y has a selection. */
  lemma SelectionMeansYes(w: World, c: nat)
    requires c < |w.defs| == |w.input|
    ensures Calc(w, c).value.pick.Some? ==> Calc(w, c).value.tri == YES
  {
  }

  /** At most one member of a choice is y: exactly the selected one if the choice is y and the
      member is fully visible. In a choice that is m no member exceeds m, in one that is n all
      members are n. */
  lemma ChoiceExclusive(w: World, m: nat)
    requires Acyclic(w) && m < |w.defs| && w.defs[m].choiceOf.Some? && w.defs[m].typ != Unknown
    requires w.defs[m].choiceOf.value < |w.defs| && BoundedByChoice(w, m)
    ensures var c := w.defs[m].choiceOf.value;
            && Calc(w, m).value.tri <= Calc(w, c).value.tri
            && (Calc(w, m).value.tri == YES <==>
                  Calc(w, c).value.tri == YES && Calc(w, c).value.pick == Some(m) && Calc(w, m).visible == YES)
  {
    MemberValue(w, m);
    SelectionMeansYes(w, w.defs[m].choiceOf.value);
  }

  lemma AtMostOneMember(w: World, m: nat, k: nat)
    requires Acyclic(w) && m < |w.defs| && k < |w.defs| && w.defs[m].typ != Unknown && w.defs[k].typ != Unknown
    requires w.defs[m].choiceOf.Some? && w.defs[k].choiceOf == w.defs[m].choiceOf && w.defs[m].choiceOf.value < |w.defs|
    requires BoundedByChoice(w, m) && BoundedByChoice(w, k)
    requires Calc(w, m).value.tri == YES && Calc(w, k).value.tri == YES
    ensures m == k
  {
    ChoiceExclusive(w, m);
    ChoiceExclusive(w, k);
  }

  // ---------- user values ----------

  /** sym_tristate_within_range on a calculated symbol. */
  ghost predicate WithinRange(w: World, s: nat, v: Tri)
    requires s < |w.defs| == |w.input|
  {
    var d, o := w.defs[s], Calc(w, s);
    && o.visible != NO
    && HasTri(d)
    && !(EffectiveType(d, o.visible, w.mv) == Boolean && v == MOD)
    && o.visible > o.rev
    && if d.choiceOf.Some? && o.visible == YES then v == YES else o.rev <= v <= o.visible
  }

  /** The input after sym_set_tristate_value(s, v), where seen is the stored visibility. */
  function SetUser(defs: seq<Def>, input: seq<Input>, seen: seq<Tri>, s: nat, v: Tri): (r: seq<Input>)
    requires s < |defs| == |input| == |seen|
    ensures |r| == |input|
  {
    var marked :=
      if defs[s].choiceOf.Some? && v == YES then MarkChoice(defs, input, seen, s, defs[s].choiceOf.value) else input;
    marked[s := marked[s].(given := true, tri := v)]
  }

  /** Setting a choice value to y picks it, and marks the choice and all its visible members. */
  function MarkChoice(defs: seq<Def>, input: seq<Input>, seen: seq<Tri>, s: nat, c: nat): (r: seq<Input>)
    requires s < |defs| == |input| == |seen|
    ensures |r| == |input|
  {
    seq(|input|, (k: int) requires 0 <= k < |input| =>
      if k == c then input[k].(given := true, pick := Some(s))
      else if c < |defs| && k in defs[c].members && seen[k] != NO then input[k].(given := true)
      else input[k])
  }

  /** The choice whose values are marked when s is set to v. */
  function PickedIn(defs: seq<Def>, s: nat, v: Tri): Option<nat>
    requires s < |defs|
  {
    if v == YES then defs[s].choiceOf else None
  }

  /** Setting s to v marks symbol k: s itself, and with y for a choice value the choice and all of its
      values that can be seen. */
  predicate Marks(defs: seq<Def>, seen: seq<Tri>, s: nat, v: Tri, k: nat)
    requires s < |defs| && k < |defs| == |seen|
  {
    || k == s
    || PickedIn(defs, s, v) == Some(k)
    || (PickedIn(defs, s, v).Some? && PickedIn(defs, s, v).value < |defs|
        && k in defs[PickedIn(defs, s, v).value].members && seen[k] != NO)
  }

  /** The input of symbol k before and after s has been set to v, apart from the mark. */
  predicate Recorded(defs: seq<Def>, s: nat, v: Tri, k: nat, a: Input, b: Input)
    requires s < |defs|
  {
    && b.tri == (if k == s then v else a.tri)
    && b.pick == (if PickedIn(defs, s, v) == Some(k) then Some(s) else a.pick)
    && b.str == a.str
  }

  lemma SetUserRecords(defs: seq<Def>, input: seq<Input>, seen: seq<Tri>, s: nat, v: Tri, k: nat)
    requires s < |defs| == |input| == |seen| && k < |defs|
    ensures var b := SetUser(defs, input, seen, s, v)[k];
      && Recorded(defs, s, v, k, input[k], b)
      && b.given == (input[k].given || Marks(defs, seen, s, v, k))
  {
  }

  /** The tristate of a symbol whose input changed, in terms of its unchanged conditions. */
  lemma {:induction false} OwnInputDecides(w: World, v: World, s: nat)
    requires Acyclic(w) && s < |w.defs| && HasTri(w.defs[s]) && AgreeBelow(w, v, w.rank(s))
    requires Calc(w, s).visible != NO && v.input[s].given
    requires w.defs[s].choiceOf.Some? ==> Calc(w, s).visible != YES
    ensures Calc(v, s).visible == Calc(w, s).visible && Calc(v, s).rev == Calc(w, s).rev
    ensures var t := Promoted(Max(Min(v.input[s].tri, Calc(w, s).visible), Calc(w, s).rev), w.defs[s], Calc(w, s).visible, w.mv);
            Calc(v, s).value.tri == if w.defs[s].isChoice && t == YES && PickD(v, s, w.rank(s)).None? then NO else t
  {
    SeenUnaffected(w, v, w.rank(s));
    ConditionsUnaffected(w, v, s);
    var d, visible, rev := w.defs[s], Calc(w, s).visible, Calc(w, s).rev;
    assert Calc(v, s).visible == visible && Calc(v, s).rev == rev;
    assert OwnTri(v, s, visible) == Min(v.input[s].tri, visible);
    assert TriD(v, s, visible, rev) == Promoted(Max(Min(v.input[s].tri, visible), rev), d, visible, w.mv);
  }

  /** A user value that is within range takes effect, for a symbol that is no choice. For a choice
      it does too, except for y when no member would be visible. */
  lemma AcceptedValueTakesEffect(w: World, v: World, s: nat, t: Tri)
    requires Acyclic(w) && s < |w.defs| && WithinRange(w, s, t)
    requires w.defs[s].choiceOf.Some? ==> Calc(w, s).visible != YES
    requires AgreeBelow(w, v, w.rank(s)) && Acyclic(v) && v.input[s].given && v.input[s].tri == t
    ensures Calc(v, s).value.tri == t <==> !(w.defs[s].isChoice && t == YES && NoVisibleMember(w, s))
  {
    OwnInputDecides(w, v, s);
    if w.defs[s].isChoice {
      NothingToSelect(v, s);
      SameMembers(w, v, s);
    }
  }

  lemma SameMembers(w: World, v: World, s: nat)
    requires s < |w.defs| && AgreeBelow(w, v, w.rank(s))
    ensures NoVisibleMember(w, s) <==> NoVisibleMember(v, s)
  {
    SeenUnaffected(w, v, w.rank(s));
    forall m: nat
      ensures MemberVisible(w, m, w.rank(s), s) == MemberVisible(v, m, w.rank(s), s)
    {
      MemberVisibleUnaffected(w, v, m, w.rank(s), s);
    }
  }

  /** The choice stays on when one of its members is picked, and selects that member. */
  lemma PickedChoice(w: World, v: World, m: nat)
    requires Acyclic(w) && Acyclic(v) && m < |w.defs| && w.defs[m].choiceOf.Some? && w.defs[m].typ != Unknown
    requires w.defs[m].choiceOf.value < |w.defs| && AgreeBelow(w, v, w.rank(w.defs[m].choiceOf.value))
    requires var c := w.defs[m].choiceOf.value;
             v.input[c] == w.input[c].(given := true, pick := Some(m)) && Calc(w, c).value.tri == YES
    requires Calc(w, m).visible != NO
    ensures var c := w.defs[m].choiceOf.value;
            Calc(v, c).value.tri == YES && Calc(v, c).value.pick == Some(m) && Calc(v, m).visible == Calc(w, m).visible
  {
    hide Acyclic;
    var c := w.defs[m].choiceOf.value;
    Family(w, m);
    MemberVisibilitySettles(w, m);
    SeenUnaffected(w, v, w.rank(c));
    MemberVisibleUnaffected(w, v, m, w.rank(c), c);
    hide SameSeen, AgreeBelow;
    assert MemberVisible(v, m, w.rank(c), c) != NO;
    PickedChoiceStaysOn(w, v, m, c);
    MemberVisibilitySettles(v, m);
  }

  lemma PickedChoiceStaysOn(w: World, v: World, m: nat, c: nat)
    requires c < |w.defs| && SameSeen(w, v, w.rank(c)) && w.defs[c].isChoice && HasTri(w.defs[c]) && w.defs[c].choiceOf.None?
    requires v.input[c] == w.input[c].(given := true, pick := Some(m)) && Calc(w, c).value.tri == YES
    requires MemberVisible(v, m, w.rank(c), c) != NO
    ensures Calc(v, c).value.tri == YES && Calc(v, c).value.pick == Some(m)
  {
    ConditionsUnaffected(w, v, c);
    assert v.defs == w.defs && v.rank == w.rank && v.mv == w.mv;
    assert PickD(v, c, w.rank(c)) == Some(m);
    ChoiceCalc(w, c);
    ChoiceCalc(v, c);
    hide *;
    var visible, rev := VisibleD(w, w.defs[c], w.rank(c), None), RevD(w, w.defs[c], VisibleD(w, w.defs[c], w.rank(c), None), w.rank(c));
    ChoiceTri(w, c, visible, rev);
    ChoiceTri(v, c, visible, rev);
    MoreStaysYes(w.input[c], visible, rev, w.defs[c], w.mv);
  }

  lemma ChoiceCalc(w: World, c: nat)
    requires c < |w.defs| == |w.input| && w.defs[c].isChoice && HasTri(w.defs[c])
    ensures var d, r := w.defs[c], w.rank(c);
      var visible := VisibleD(w, d, r, None);
      var t := TriD(w, c, visible, RevD(w, d, visible, r));
      && (t != YES ==> Calc(w, c).value.tri != YES)
      && (t == YES && PickD(w, c, r).Some? ==> Calc(w, c).value.tri == YES && Calc(w, c).value.pick == PickD(w, c, r))
  {
  }

  /** Marking a choice that is on as given by the user cannot turn it off. */
  lemma MoreStaysYes(u: Input, visible: Tri, rev: Tri, d: Def, mv: Tri)
    requires Promoted(Max(if visible != NO && u.given then Min(u.tri, visible) else NO, rev), d, visible, mv) == YES
    ensures Promoted(Max(if visible != NO then Min(u.tri, visible) else NO, rev), d, visible, mv) == YES
  {
  }

  /** The tristate of a choice before it selects a member. */
  lemma ChoiceTri(w: World, c: nat, visible: Tri, rev: Tri)
    requires c < |w.defs| == |w.input| && w.defs[c].isChoice && w.defs[c].choiceOf.None?
    ensures var u := w.input[c];
      TriD(w, c, visible, rev) ==
        Promoted(Max(if visible != NO && u.given then Min(u.tri, visible) else NO, rev), w.defs[c], visible, w.mv)
  {
  }

  /** The input a calculation has left: some choices have lost their user mark, but those are
      selected anyway, except perhaps for one. */
  ghost predicate MarksLeft(w: World, now: seq<Input>, except: Option<nat>)
    requires WellFormed(w)
  {
    && |now| == |w.input|
    && forall k :: 0 <= k < |now| ==>
         || now[k] == w.input[k] || StaysOn(w, k, now[k])
         || (except == Some(k) && w.defs[k].isChoice && now[k] == w.input[k].(given := false))
  }

  lemma MarkChoiceAgrees(w: World, now: seq<Input>, seen: seq<Tri>, s: nat)
    requires Acyclic(w) && s < |w.defs| == |seen| && w.defs[s].choiceOf.Some? && w.defs[s].typ != Unknown
    requires w.defs[s].choiceOf.value < |w.defs| && MarksLeft(w, now, w.defs[s].choiceOf)
    ensures var c := w.defs[s].choiceOf.value;
            var v := w.(input := SetUser(w.defs, now, seen, s, YES));
            && AgreeBelow(w, v, w.rank(c)) && Acyclic(v)
            && v.input[c] == w.input[c].(given := true, pick := Some(s))
  {
    var c := w.defs[s].choiceOf.value;
    var v := w.(input := SetUser(w.defs, now, seen, s, YES));
    hide SymbolBelow, StaysOn;
    Family(w, s);
    forall k | 0 <= k < |w.defs|
      ensures w.rank(k) < w.rank(c) ==> v.input[k] == now[k] && k != c
    {
      if k in w.defs[c].members { MemberRanks(w, c, k); }
    }
    forall k | 0 <= k < |w.defs|
      ensures SymbolBelow(v, k)
    {
      assert SymbolBelow(w, k);
      LeftKeepsPick(w, now, w.defs[s].choiceOf, k);
      assert k != c ==> v.input[k].pick == w.input[k].pick;
      SameBelow(w, v, k);
    }
  }

  lemma LeftKeepsPick(w: World, now: seq<Input>, except: Option<nat>, k: nat)
    requires WellFormed(w) && MarksLeft(w, now, except) && k < |now|
    ensures now[k].pick == w.input[k].pick
  {
  }

  lemma MemberRanks(w: World, c: nat, m: nat)
    requires Acyclic(w) && c < |w.defs| && w.defs[c].isChoice && w.defs[c].typ != Unknown && m in w.defs[c].members
    ensures m < |w.defs| && w.rank(m) > w.rank(c)
  {
    assert SymbolBelow(w, c);
    assert SymbolBelow(w, m);
  }

  /** Ranks do not depend on the input. */
  lemma SameBelow(w: World, v: World, s: nat)
    requires s < |w.defs| == |w.input| == |v.input| && v == w.(input := v.input) && SymbolBelow(w, s)
    requires v.input[s].pick.Some? && w.defs[s].isChoice ==> v.input[s].pick == w.input[s].pick || v.input[s].pick.value in w.defs[s].members
    ensures SymbolBelow(v, s)
  {
    var d := w.defs[s];
    forall e: Expr, bound: nat, on: Option<nat>
      ensures Below(w, e, bound, on) == Below(v, e, bound, on)
    {
      SameBelowExpr(w, v, e, bound, on);
    }
  }

  lemma {:induction false} SameBelowExpr(w: World, v: World, e: Expr, bound: nat, on: Option<nat>)
    requires v == w.(input := v.input)
    ensures Below(w, e, bound, on) == Below(v, e, bound, on)
  {
    match e
    case Not(x) => SameBelowExpr(w, v, x, bound, on);
    case Bin(_, l, r) => SameBelowExpr(w, v, l, bound, on); SameBelowExpr(w, v, r, bound, on);
    case _ =>
  }

  /** Another member of the same choice. */
  ghost predicate Sibling(w: World, m: nat, k: nat)
    requires m < |w.defs|
  {
    && k < |w.defs| && k != m && w.defs[k].typ != Unknown
    && w.defs[k].choiceOf == w.defs[m].choiceOf && w.defs[k].choiceOf.Some? && w.defs[k].choiceOf.value < |w.defs|
  }

  /** Setting a fully visible choice value to y makes it y, and every other member not y. */
  lemma PickedMemberTakesEffect(w: World, now: seq<Input>, seen: seq<Tri>, m: nat)
    requires Acyclic(w) && m < |w.defs| == |seen| && w.defs[m].choiceOf.Some? && w.defs[m].typ != Unknown
    requires w.defs[m].choiceOf.value < |w.defs| && BoundedByChoice(w, m)
    requires WithinRange(w, m, YES) && MarksLeft(w, now, w.defs[m].choiceOf)
    ensures var v := w.(input := SetUser(w.defs, now, seen, m, YES));
            && Calc(v, m).value.tri == YES
            && (forall k :: Sibling(w, m, k) && BoundedByChoice(v, k) ==> Calc(v, k).value.tri != YES)
  {
    var v := w.(input := SetUser(w.defs, now, seen, m, YES));
    MarkChoiceAgrees(w, now, seen, m);
    assert Calc(w, m).visible == YES;
    PickedChoice(w, v, m);
    assert SymbolBelow(v, m);
    ChoiceExclusive(v, m);
    forall k | Sibling(w, m, k) && BoundedByChoice(v, k)
      ensures Calc(v, k).value.tri != YES
    {
      ChoiceExclusive(v, k);
    }
  }

  /** The choice whose mark does not matter when s is set to t: a choice that is set gets it, and so
      does the choice of a choice value that is set to y. */
  function Remarked(defs: seq<Def>, s: nat, t: Tri): Option<nat>
    requires s < |defs|
  {
    if defs[s].isChoice then Some(s) else if t == YES then defs[s].choiceOf else None
  }

  /** New user values leave a table acyclic, and reach nothing below the symbol unless it is picked. */
  lemma SetUserAgrees(w: World, now: seq<Input>, seen: seq<Tri>, s: nat, t: Tri)
    requires Acyclic(w) && s < |w.defs| == |seen| && w.defs[s].typ != Unknown
    requires w.defs[s].choiceOf.Some? ==> w.defs[s].choiceOf.value < |w.defs|
    requires MarksLeft(w, now, Remarked(w.defs, s, t))
    ensures var v := w.(input := SetUser(w.defs, now, seen, s, t));
            && Acyclic(v) && v.input[s].given && v.input[s].tri == t
            && (w.defs[s].choiceOf.None? || t != YES ==> AgreeBelow(w, v, w.rank(s)))
  {
    var v := w.(input := SetUser(w.defs, now, seen, s, t));
    assert SymbolBelow(w, s);
    if w.defs[s].choiceOf.Some? && t == YES {
      MarkChoiceAgrees(w, now, seen, s);
    } else {
      hide SymbolBelow, StaysOn;
      forall k | 0 <= k < |w.defs|
        ensures SymbolBelow(v, k)
      {
        assert SymbolBelow(w, k);
        LeftKeepsPick(w, now, Remarked(w.defs, s, t), k);
        SameBelow(w, v, k);
      }
    }
  }

  /** sym_set_tristate_value followed by recalculation: an accepted new value is the symbol's value,
      if no other choice has lost a user mark without which it is off. The only exception is y for a
      choice none of whose members would be visible. */
  lemma SetUserTakesEffect(w: World, now: seq<Input>, seen: seq<Tri>, s: nat, t: Tri)
    requires Acyclic(w) && s < |w.defs| == |seen| && WithinRange(w, s, t)
    requires w.defs[s].choiceOf.Some? ==> w.defs[s].choiceOf.value < |w.defs| && BoundedByChoice(w, s)
    requires MarksLeft(w, now, Remarked(w.defs, s, t))
    ensures Calc(w.(input := SetUser(w.defs, now, seen, s, t)), s).value.tri == t
       <==> !(w.defs[s].isChoice && t == YES && NoVisibleMember(w, s))
  {
    if w.defs[s].choiceOf.Some? && Calc(w, s).visible == YES {
      Family(w, s);
      PickedMemberTakesEffect(w, now, seen, s);
    } else {
      SetUserAgrees(w, now, seen, s, t);
      AcceptedValueTakesEffect(w, w.(input := SetUser(w.defs, now, seen, s, t)), s, t);
    }
  }
}
