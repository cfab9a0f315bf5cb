/** The user marks that sym_calc_choice of support/kconfig/symbol.c takes from choices, and what that
    means for values set afterwards. */
module UserMarks {
  import opened Tristates
  import opened Wrappers
  import opened Expressions
  import opened Calculation
  import opened UserValues

  /** A visible member of choice c that the user has not set, such as one that is new. */
  ghost predicate Unmarked(w: World, c: nat, m: nat) {
    && c < |w.defs| == |w.input| && m in w.defs[c].members && m < |w.defs|
    && MemberVisible(w, m, w.rank(c), c) != NO && !w.input[m].given
  }

  /** The choice is on, and its user mark is taken because not all visible members have one. */
  ghost predicate LosesMark(w: World, c: nat)
    requires c < |w.defs| == |w.input|
  {
    && w.defs[c].isChoice && w.defs[c].typ != Unknown && Calc(w, c).value.tri == YES
    && w.input[c].given && exists m :: Unmarked(w, c, m)
  }

  /** The input after the symbols in valid have been calculated. */
  ghost function Left(w: World, valid: set<nat>): (r: seq<Input>)
    requires WellFormed(w)
    ensures |r| == |w.input|
  {
    seq(|w.input|, (k: int) requires 0 <= k < |w.input| =>
      if k in valid && LosesMark(w, k) then w.input[k].(given := false) else w.input[k])
  }

  lemma ChoiceIsPlain(w: World, c: nat)
    requires Acyclic(w) && c < |w.defs| && w.defs[c].isChoice && w.defs[c].typ != Unknown
    ensures |w.input| == |w.defs| && HasTri(w.defs[c]) && w.defs[c].choiceOf.None?
  {
    assert SymbolBelow(w, c);
  }

  /** Without its mark a choice is what it is selected to be. */
  lemma WithoutMark(w: World, v: World, c: nat)
    requires Acyclic(w) && c < |w.defs| && SameSeen(w, v, w.rank(c)) && LosesMark(w, c)
    requires v.input[c] == w.input[c].(given := false)
    ensures Calc(w, c).rev == YES ==> Calc(v, c) == Calc(w, c)
    ensures Calc(w, c).rev != YES ==> Calc(v, c).value.tri == Calc(w, c).rev < YES == Calc(w, c).value.tri
  {
    ChoiceIsPlain(w, c);
    hide Acyclic;
    ConditionsUnaffected(w, v, c);
    PickUnaffected(w, v, c);
    var d, visible, rev := w.defs[c], Calc(w, c).visible, Calc(w, c).rev;
    ChoiceTri(w, c, visible, rev);
    ChoiceTri(v, c, visible, rev);
  }

  /** No choice that is on depends on a mark that it has lost. */
  ghost predicate MarksHold(w: World, valid: set<nat>)
    requires WellFormed(w)
  {
    forall c :: 0 <= c < |w.defs| && c in valid && LosesMark(w, c) ==> Calc(w, c).rev == YES
  }

  ghost predicate Repeats(w: World, v: World)
    requires WellFormed(w) && WellFormed(v) && v == w.(input := v.input)
  {
    forall s :: 0 <= s < |w.defs| ==> Calc(v, s) == Calc(w, s)
  }

  lemma HoldIsEnough(w: World, valid: set<nat>)
    requires Acyclic(w) && MarksHold(w, valid)
    ensures Repeats(w, w.(input := Left(w, valid)))
  {
    hide SymbolBelow;
    var v := w.(input := Left(w, valid));
    forall k | 0 <= k < |w.defs|
      ensures v.input[k] == w.input[k] || StaysOn(w, k, v.input[k])
    {
      if v.input[k] != w.input[k] { ChoiceIsPlain(w, k); }
    }
    forall s | 0 <= s < |w.defs|
      ensures Calc(v, s) == Calc(w, s)
    {
      CalcUnaffected(w, v, s);
    }
  }

  lemma LossIsSeen(w: World, valid: set<nat>, c: nat)
    requires Acyclic(w) && c < |w.defs| && c in valid && LosesMark(w, c) && Calc(w, c).rev != YES
    ensures !Repeats(w, w.(input := Left(w, valid)))
  {
    hide SymbolBelow, Calc;
    var v := w.(input := Left(w, valid));
    if Repeats(w, v) {
      forall id: nat
        ensures Seen(w, id, w.rank(c), None) == Seen(v, id, w.rank(c), None)
      {
      }
      assert SameSeen(w, v, w.rank(c));
      WithoutMark(w, v, c);
    }
  }

  /** Calculating again from the marks that a calculation has left gives the same outcome for every
      symbol, if and only if no choice was on only because of a mark that it has lost. */
  lemma RecalculationRepeats(w: World, valid: set<nat>)
    requires Acyclic(w)
    ensures Repeats(w, w.(input := Left(w, valid))) <==> MarksHold(w, valid)
  {
    hide SymbolBelow, LosesMark, Calc, Repeats;
    if MarksHold(w, valid) {
      HoldIsEnough(w, valid);
    } else {
      var c :| 0 <= c < |w.defs| && c in valid && LosesMark(w, c) && Calc(w, c).rev != YES;
      LossIsSeen(w, valid, c);
    }
  }

  // ---------- when a value takes effect after marks have been lost ----------

  /** Calculated anew, the symbol lets the user choose t, or has no other value anyway. */
  ghost predicate Reaches(x: World, s: nat, t: Tri)
    requires s < |x.defs| == |x.input|
  {
    var o := Calc(x, s);
    if o.visible == NO then o.value.tri == t
    else t == o.rev || (o.rev <= t <= o.visible && !(EffectiveType(x.defs[s], o.visible, x.mv) == Boolean && t == MOD))
  }

  /** What a choice with the user's tristate t is before it selects a member. */
  ghost function MarkedAs(x: World, c: nat, t: Tri): Tri
    requires c < |x.defs| == |x.input|
  {
    var o := Calc(x, c);
    Promoted(Max(if o.visible != NO then Min(t, o.visible) else NO, o.rev), x.defs[c], o.visible, x.mv)
  }

  /** The user's tristate turns the choice on. */
  ghost predicate OnIfMarked(x: World, c: nat)
    requires c < |x.defs| == |x.input|
  {
    MarkedAs(x, c, x.input[c].tri) == YES
  }

  /** A choice becomes t, where y needs a member that would be visible and otherwise is n. */
  ghost predicate ChoiceReaches(x: World, c: nat, t: Tri)
    requires c < |x.defs| == |x.input|
  {
    var r := MarkedAs(x, c, t);
    t == if r == YES && NoVisibleMember(x, c) then NO else r
  }

  /** Setting s to t takes effect exactly if this holds of the table calculated anew from the stored
      input, x. */
  ghost predicate TakesEffect(x: World, s: nat, t: Tri)
    requires s < |x.defs| == |x.input|
  {
    var c := x.defs[s].choiceOf;
    if x.defs[s].isChoice then ChoiceReaches(x, s, t)
    else if c.None? then Reaches(x, s, t)
    else if t == YES then c.value < |x.defs| && OnIfMarked(x, c.value) && MemberVisible(x, s, x.rank(c.value), c.value) == YES
    else Calc(x, s).visible == MOD || Calc(x, s).value.tri == t
  }

  /** A symbol in no choice has the value set if and only if it can reach it. */
  lemma ReachedExactly(x: World, v: World, s: nat, t: Tri)
    requires Acyclic(x) && s < |x.defs| && HasTri(x.defs[s]) && x.defs[s].choiceOf.None? && !x.defs[s].isChoice
    requires AgreeBelow(x, v, x.rank(s)) && v.input[s].given && v.input[s].tri == t
    ensures Calc(v, s).value.tri == t <==> Reaches(x, s, t)
  {
    if Calc(x, s).visible == NO {
      SeenUnaffected(x, v, x.rank(s));
      ConditionsUnaffected(x, v, s);
      assert OwnTri(v, s, NO) == OwnTri(x, s, NO);
      assert TriD(v, s, NO, Calc(x, s).rev) == TriD(x, s, NO, Calc(x, s).rev);
    } else {
      CalcIsTyped(x, s);
      OwnInputDecides(x, v, s);
      assert Calc(x, s).rev == RevD(x, x.defs[s], Calc(x, s).visible, x.rank(s));
    }
  }

  lemma ChoiceExactly(x: World, v: World, s: nat, t: Tri)
    requires Acyclic(x) && Acyclic(v) && s < |x.defs| && x.defs[s].isChoice && x.defs[s].typ != Unknown
    requires AgreeBelow(x, v, x.rank(s)) && v.input[s].given && v.input[s].tri == t
    ensures Calc(v, s).value.tri == t <==> ChoiceReaches(x, s, t)
  {
    ChoiceIsPlain(x, s);
    ConditionsOf(x, s);
    SeenUnaffected(x, v, x.rank(s));
    ConditionsUnaffected(x, v, s);
    NothingToSelect(v, s);
    SameMembers(x, v, s);
    hide Acyclic, AgreeBelow, SameSeen, NoVisibleMember;
    ChoiceTri(v, s, Calc(x, s).visible, Calc(x, s).rev);
  }

  lemma MarkedTri(x: World, v: World, c: nat, m: nat)
    requires Acyclic(x) && c < |x.defs| && SameSeen(x, v, x.rank(c)) && x.defs[c].isChoice && x.defs[c].typ != Unknown
    requires v.input[c] == x.input[c].(given := true, pick := Some(m)) && m in x.defs[c].members
    ensures Calc(v, c).value.tri == YES ==> OnIfMarked(x, c)
    ensures OnIfMarked(x, c) && MemberVisible(x, m, x.rank(c), c) != NO ==>
      Calc(v, c).value.tri == YES && Calc(v, c).value.pick == Some(m)
  {
    ChoiceIsPlain(x, c);
    ConditionsOf(x, c);
    hide Acyclic;
    ConditionsUnaffected(x, v, c);
    MemberVisibleUnaffected(x, v, m, x.rank(c), c);
    hide SameSeen, Calc, TriD, MemberVisible;
    ChoiceTri(v, c, Calc(x, c).visible, Calc(x, c).rev);
    ChoiceCalc(v, c);
  }

  lemma ConditionsOf(x: World, c: nat)
    requires c < |x.defs| == |x.input| && x.defs[c].typ != Unknown
    ensures Calc(x, c).visible == VisibleD(x, x.defs[c], x.rank(c), None)
    ensures Calc(x, c).rev == RevD(x, x.defs[c], Calc(x, c).visible, x.rank(c))
  {
  }

  /** A choice value that is set to y is y if and only if its choice is on with the mark it gets and
      shows it fully. */
  lemma PickedExactly(x: World, seen: seq<Tri>, m: nat)
    requires Acyclic(x) && m < |x.defs| == |seen| && x.defs[m].choiceOf.Some? && x.defs[m].typ != Unknown
    requires x.defs[m].choiceOf.value < |x.defs|
    ensures var v := x.(input := SetUser(x.defs, x.input, seen, m, YES));
      BoundedByChoice(v, m) ==> (Calc(v, m).value.tri == YES <==> TakesEffect(x, m, YES))
  {
    var c := x.defs[m].choiceOf.value;
    var v := x.(input := SetUser(x.defs, x.input, seen, m, YES));
    Family(x, m);
    MarkChoiceAgrees(x, x.input, seen, m);
    hide Acyclic, AgreeBelow;
    SeenUnaffected(x, v, x.rank(c));
    MarkedTri(x, v, c, m);
    MemberVisibleUnaffected(x, v, m, x.rank(c), c);
    if Calc(v, c).value.tri == YES {
      MemberVisibilitySettles(v, m);
    }
    MemberValue(v, m);
  }

  /** A choice value that is not set to y follows the user where it is visible as m. */
  lemma FollowsExactly(x: World, v: World, m: nat, t: Tri)
    requires Acyclic(x) && Acyclic(v) && m < |x.defs| && x.defs[m].choiceOf.Some? && x.defs[m].typ != Unknown && t != YES
    requires AgreeBelow(x, v, x.rank(m)) && v.input[m].given && v.input[m].tri == t
    ensures Calc(v, m).value.tri == t <==> TakesEffect(x, m, t)
  {
    Family(x, m);
    var c := x.defs[m].choiceOf.value;
    SeenUnaffected(x, v, x.rank(m));
    ConditionsUnaffected(x, v, m);
    assert Seen(x, c, x.rank(m), None) == Seen(v, c, x.rank(m), None);
    hide Acyclic, AgreeBelow;
    MemberValue(x, m);
    MemberValue(v, m);
  }

  /** sym_set_tristate_value followed by recalculation from the input x.input that was stored. */
  lemma SetTakesEffectExactly(x: World, seen: seq<Tri>, s: nat, t: Tri)
    requires Acyclic(x) && s < |x.defs| == |seen| && HasTri(x.defs[s])
    requires x.defs[s].choiceOf.Some? ==> x.defs[s].choiceOf.value < |x.defs|
    ensures var v := x.(input := SetUser(x.defs, x.input, seen, s, t));
      (x.defs[s].choiceOf.Some? && t == YES ==> BoundedByChoice(v, s)) ==>
        (Calc(v, s).value.tri == t <==> TakesEffect(x, s, t))
  {
    hide SymbolBelow, AgreeBelow, TakesEffect;
    SetUserAgrees(x, x.input, seen, s, t);
    var v := x.(input := SetUser(x.defs, x.input, seen, s, t));
    NoChoice(x, s, t);
    if x.defs[s].isChoice {
      ChoiceIsPlain(x, s);
      ChoiceExactly(x, v, s, t);
    } else if x.defs[s].choiceOf.None? {
      ReachedExactly(x, v, s, t);
    } else if t == YES {
      PickedExactly(x, seen, s);
    } else {
      FollowsExactly(x, v, s, t);
    }
  }

  lemma NoChoice(x: World, s: nat, t: Tri)
    requires s < |x.defs| == |x.input|
    ensures x.defs[s].isChoice ==> TakesEffect(x, s, t) == ChoiceReaches(x, s, t)
    ensures !x.defs[s].isChoice && x.defs[s].choiceOf.None? ==> TakesEffect(x, s, t) == Reaches(x, s, t)
  {
  }

  // ---------- a value that does not take effect ----------

  function NewMemberDefs(): seq<Def> {
    var shown := Some(Symbol(Var(1, Boolean)));
    [Def("MODULES", Boolean, [], [], None, None, false, [], None),
     Def("", Boolean, [None], [], None, None, true, [2, 3], None),
     Def("A", Boolean, [shown], [], None, None, false, [], Some(1)),
     Def("B", Boolean, [shown], [], None, None, false, [], Some(1)),
     Def("S", Boolean, [shown], [], None, None, false, [], None)]
  }

  function NewMemberInput(): seq<Input> {
    [Input(false, NO, "", None), Input(true, YES, "", Some(2)), Input(true, YES, "", None),
     Input(false, NO, "", None), Input(false, NO, "", None)]
  }

  /** An optional choice, which nothing selects, is on because the user said so. Its member 3 is new,
      and symbol 4 is shown while the choice is on. */
  ghost predicate NewMember(w: World) {
    && w.defs == NewMemberDefs() && w.input == NewMemberInput() && w.modules == 0 && w.mv == NO
    && w.rank(0) == 0 && w.rank(1) == 1 && w.rank(2) == w.rank(3) == w.rank(4) == 2
  }

  lemma NewMemberAcyclic(w: World)
    requires NewMember(w)
    ensures Acyclic(w)
  {
    assert SymbolBelow(w, 0) && SymbolBelow(w, 1) && SymbolBelow(w, 2) && SymbolBelow(w, 3) && SymbolBelow(w, 4);
  }

  /** A boolean without properties is n. */
  lemma BareIsOff(w: World, s: nat)
    requires s < |w.defs| == |w.input| && w.defs[s] == Def(w.defs[s].name, Boolean, [], [], None, None, false, [], None)
    ensures Calc(w, s).value.tri == NO
  {
    var d, r := w.defs[s], w.rank(s);
    assert Strongest(w, d.prompts, r, None) == NO;
    assert ActiveDefault(w, d, 0, r, None) == None;
    assert DefaultTri(w, d, r) == NO;
    assert RevD(w, d, NO, r) == NO && VisibleD(w, d, r, None) == NO;
    assert OwnTri(w, s, NO) == NO;
    assert TriD(w, s, NO, NO) == NO;
  }

  lemma OnePrompt(w: World, p: Option<Expr>, bound: nat, on: Option<nat>)
    ensures Strongest(w, [p], bound, on) == TrisOpt(w, p, bound, on)
  {
    assert [p][..0] == [];
    assert Strongest(w, [], bound, on) == NO;
  }

  /** What is on while the choice is. */
  lemma NewMemberValues(w: World, v: World)
    requires NewMember(w) && WellFormed(v) && v == w.(input := v.input) && v.input[0] == w.input[0]
    requires v.input[1].pick == Some(2) && v.input[1].tri == YES
    ensures Calc(v, 0).value.tri == NO
    ensures Calc(v, 1).rev == NO && Calc(v, 1).value.tri == (if v.input[1].given then YES else NO)
    ensures MemberVisible(v, 3, 1, 1) == YES
    ensures Calc(v, 4).rev == NO && Calc(v, 4).visible == Calc(v, 1).value.tri
    ensures v.input[1].given ==> (LosesMark(v, 1) <==> !v.input[2].given || !v.input[3].given)
  {
    var p := v.defs[4].prompts[0];
    OnePrompt(v, None, 1, None);
    OnePrompt(v, p, 1, Some(1));
    OnePrompt(v, p, 2, None);
    BareIsOff(v, 0);
    assert TrisOpt(v, p, 1, Some(1)) == YES;
    assert MemberVisible(v, 2, 1, 1) == YES && MemberVisible(v, 3, 1, 1) == YES;
    assert Calc(v, 1).visible == YES && Calc(v, 1).rev == NO;
    ChoiceTri(v, 1, YES, NO);
    assert PickD(v, 1, 1) == Some(2);
    assert TrisOpt(v, p, 2, None) == Calc(v, 1).value.tri;
    assert Calc(v, 4).visible == VisibleD(v, v.defs[4], 2, None);
    assert v.input[2].given || Unmarked(v, 1, 2);
    assert v.input[3].given || Unmarked(v, 1, 3);
  }

  /** Setting the symbol to y is accepted, but turns off the choice, so the symbol is n. */
  lemma AcceptedWithoutEffect(w: World, seen: seq<Tri>)
    requires NewMember(w) && |seen| == |w.defs|
    ensures Acyclic(w) && ModulesAgree(w) && LosesMark(w, 1) && WithinRange(w, 4, YES) && Calc(w, 4).value.tri == NO
    ensures var now := w.input[1 := w.input[1].(given := false)];
      var v := w.(input := SetUser(w.defs, now, seen, 4, YES));
      && (forall valid :: 1 in valid ==> now == Left(w, valid)) && Acyclic(v) && ModulesAgree(v)
      && Calc(v, 1).value.tri == NO && Calc(v, 4).value.tri == NO
  {
    NewMemberAcyclic(w);
    NewMemberValues(w, w);
    var now := w.input[1 := w.input[1].(given := false)];
    forall valid: set<nat> | 1 in valid
      ensures now == Left(w, valid)
    {
    }
    var v := w.(input := SetUser(w.defs, now, seen, 4, YES));
    NewMemberValues(w, v);
    forall s: nat | s < |v.defs|
      ensures SymbolBelow(v, s)
    {
      assert SymbolBelow(w, s);
      SameBelow(w, v, s);
    }
    OwnFour(w);
    OwnFour(v);
  }

  lemma OwnFour(v: World)
    requires WellFormed(v) && |v.defs| == 5 && v.defs[4] == Def("S", Boolean, v.defs[4].prompts, [], None, None, false, [], None)
    requires (Calc(v, 4).visible == NO || !v.input[4].given) && Calc(v, 4).rev == NO
    ensures Calc(v, 4).value.tri == NO
  {
    var visible := Calc(v, 4).visible;
    assert ActiveDefault(v, v.defs[4], 0, v.rank(4), None) == None;
    assert DefaultTri(v, v.defs[4], v.rank(4)) == NO;
    assert OwnTri(v, 4, visible) == NO && TriD(v, 4, visible, NO) == NO;
  }

  function HiddenMemberDefs(): seq<Def> {
    [Def("MODULES", Boolean, [], [], None, None, false, [], None),
     Def("", Boolean, [None], [], None, None, true, [2], None),
     Def("A", Boolean, [Some(Bin(And, Symbol(Var(1, Boolean)), Symbol(No)))], [], None, None, false, [], Some(1))]
  }

  function HiddenMemberInput(): seq<Input> {
    [Input(false, NO, "", None), Input(false, NO, "", None), Input(false, NO, "", None)]
  }

  /** An optional choice whose prompt is shown and whose only member never is. */
  ghost predicate HiddenMember(w: World) {
    && w.defs == HiddenMemberDefs() && w.input == HiddenMemberInput() && w.modules == 0 && w.mv == NO
    && w.rank(0) == 0 && w.rank(1) == 1 && w.rank(2) == 2
  }

  lemma HiddenMemberAcyclic(w: World)
    requires HiddenMember(w)
    ensures Acyclic(w)
  {
    assert SymbolBelow(w, 0) && SymbolBelow(w, 1) && SymbolBelow(w, 2);
  }

  lemma HiddenMemberValues(w: World, v: World)
    requires HiddenMember(w) && WellFormed(v) && v == w.(input := v.input) && v.input[0] == w.input[0]
    ensures Calc(v, 0).value.tri == NO && NoVisibleMember(v, 1)
    ensures Calc(v, 1).visible == YES && Calc(v, 1).rev == NO
  {
    var p := v.defs[2].prompts[0];
    OnePrompt(v, None, 1, None);
    OnePrompt(v, p, 1, Some(1));
    assert Tris(v, Symbol(No), 1, Some(1)) == NO;
    assert TrisOpt(v, p, 1, Some(1)) == NO;
    assert MemberVisible(v, 2, 1, 1) == NO;
    BareIsOff(v, 0);
  }

  /** Setting the choice to y is accepted, but it has nothing to select and stays n. */
  lemma ChoiceStaysOff(w: World, seen: seq<Tri>)
    requires HiddenMember(w) && |seen| == |w.defs|
    ensures Acyclic(w) && ModulesAgree(w) && WithinRange(w, 1, YES) && Calc(w, 1).value.tri == NO
    ensures var v := w.(input := SetUser(w.defs, w.input, seen, 1, YES));
      Acyclic(v) && ModulesAgree(v) && Calc(v, 1).value.tri == NO
  {
    HiddenMemberAcyclic(w);
    var v := w.(input := SetUser(w.defs, w.input, seen, 1, YES));
    HiddenMemberValues(w, w);
    HiddenMemberValues(w, v);
    SetUserAgrees(w, w.input, seen, 1, YES);
    NothingToSelect(w, 1);
    NothingToSelect(v, 1);
    ChoiceTri(w, 1, YES, NO);
    ChoiceTri(v, 1, YES, NO);
  }
}
