/** The minimal configuration of conf_write_defconfig in support/kconfig/confdata.c: which values it
    leaves out, and why reading it back gives every symbol the value it had. */
module Defconfig {
  import opened Tristates
  import opened Wrappers
  import opened Expressions
  import opened Calculation
  import opened UserValues

  /** sym_get_string_value on a calculated symbol. */
  ghost function ValueText(w: World, s: nat): string
    requires s < |w.defs| == |w.input|
  {
    if HasTri(w.defs[s]) then TriText(Calc(w, s).value.tri, w.mv) else Calc(w, s).value.str
  }

  /** The tristate part of sym_get_string_default: m is y without modules, unless the symbol is a
      choice value, and y for a boolean. */
  function DefaultTristate(d: Def, own: Tri, rev: Tri, mv: Tri): Tri {
    var t := Max(own, rev);
    if t == MOD && ((d.choiceOf.None? && mv == NO) || d.typ == Boolean) then YES else t
  }

  /** sym_get_string_default on a calculated symbol. */
  ghost function DefaultValueText(w: World, s: nat): string
    requires s < |w.defs| == |w.input|
  {
    var d := w.defs[s];
    if HasTri(d) then Name(DefaultTristate(d, DefaultTri(w, d, w.rank(s)), Calc(w, s).rev, w.mv))
    else if HasText(d) then DefaultText(w, d, w.rank(s))
    else ""
  }

  /** A choice value of a choice that is not optional is left out when the choice would select it
      anyway. */
  ghost predicate SelectedByDefault(w: World, optional: set<nat>, s: nat)
    requires s < |w.defs| == |w.input|
  {
    var d := w.defs[s];
    && d.choiceOf.Some? && d.choiceOf.value < |w.defs| && d.choiceOf.value !in optional
    && ChoiceDefaultD(w, d.choiceOf.value, 0, w.rank(d.choiceOf.value)) == Some(s)
    && d.typ == Boolean && Calc(w, s).value.tri == YES
  }

  /** conf_write_defconfig writes a line for the symbol. A choice value is marked for writing at
      least when it is selected. */
  ghost predicate Saves(w: World, optional: set<nat>, s: nat)
    requires s < |w.defs| == |w.input|
  {
    var d, o := w.defs[s], Calc(w, s);
    && !d.isChoice && (d.choiceOf.None? ==> o.written)
    && o.visible > o.rev
    && ValueText(w, s) != DefaultValueText(w, s)
    && !SelectedByDefault(w, optional, s)
  }

  /** The part of the reverse dependency that menu_finalize gives a choice that is not optional. */
  function OnWithPrompt(p: Option<Expr>): Expr {
    if p.None? then Symbol(Mod) else Bin(And, p.value, Symbol(Mod))
  }

  predicate HeldByPrompt(d: Def) {
    && |d.prompts| == 1 && d.revDep.Some?
    && (d.revDep.value == OnWithPrompt(d.prompts[0])
        || (d.revDep.value.Bin? && d.revDep.value.op == Or && d.revDep.value.right == OnWithPrompt(d.prompts[0])))
  }

  /** Modules are off, and choices that are not optional are on as soon as their prompt is visible. */
  ghost predicate ModulesOff(w: World, optional: set<nat>) {
    && Acyclic(w) && w.mv == NO
    && (forall s :: 0 <= s < |w.defs| ==> (w.defs[s].isChoice && s !in optional ==> HeldByPrompt(w.defs[s])))
  }

  /** A line for a choice value that is y. */
  ghost predicate SavesPick(w: World, optional: set<nat>, c: nat, m: nat) {
    && m < |w.defs| == |w.input| && w.defs[m].choiceOf == Some(c)
    && Saves(w, optional, m) && Calc(w, m).value.tri == YES
  }

  /** The input of symbol s after the file has been read into a table without any. */
  ghost predicate Restored(w: World, optional: set<nat>, s: nat, u: Input)
    requires s < |w.defs| == |w.input|
  {
    var d := w.defs[s];
    if d.isChoice then
      if u.pick.Some? then u.given && u.tri == YES && SavesPick(w, optional, s, u.pick.value)
      else u.given && u.tri == NO && forall m :: !SavesPick(w, optional, s, m)
    else
      && u.given == Saves(w, optional, s)
      && (u.given && HasTri(d) ==> u.tri == Calc(w, s).value.tri)
      && (u.given && HasText(d) ==> u.str == Calc(w, s).value.str)
  }

  ghost predicate Reloaded(w: World, optional: set<nat>, v: World) {
    && WellFormed(w) && WellFormed(v) && v == w.(input := v.input)
    && forall s :: 0 <= s < |w.defs| ==> Restored(w, optional, s, v.input[s])
  }

  // ---------- the values come back ----------

  lemma NamesDiffer()
    ensures Name(NO) != Name(YES) && Name(NO) != Name(MOD) && Name(MOD) != Name(YES)
  {
    assert Name(NO)[0] != Name(YES)[0] && Name(NO)[0] != Name(MOD)[0] && Name(MOD)[0] != Name(YES)[0];
  }

  /** A visible choice that is not optional is on, whatever the user says. */
  lemma HeldChoiceIsOn(w: World, optional: set<nat>, c: nat)
    requires ModulesOff(w, optional) && c < |w.defs| && w.defs[c].isChoice && c !in optional && w.defs[c].typ != Unknown
    ensures |w.input| == |w.defs| && (Calc(w, c).visible != NO ==> Calc(w, c).rev == YES)
  {
    hide SymbolBelow, Calc;
    var d, r := w.defs[c], w.rank(c);
    assert SymbolBelow(w, c);
    ChoiceShape(w, c);
    var p := d.prompts[0];
    assert d.prompts[..0] == [];
    assert Strongest(w, d.prompts[..0], r, None) == NO;
    assert d.prompts[..|d.prompts| - 1] == d.prompts[..0];
    assert Strongest(w, d.prompts, r, None) == TrisOpt(w, p, r, None);
    assert Tris(w, Symbol(Mod), r, None) == MOD;
    assert Tris(w, OnWithPrompt(p), r, None) == Min(TrisOpt(w, p, r, None), MOD);
  }

  lemma ChoiceShape(w: World, c: nat)
    requires Acyclic(w) && c < |w.defs| && w.defs[c].isChoice && w.defs[c].typ != Unknown
    ensures HasTri(w.defs[c]) && w.defs[c].choiceOf.None? && |w.input| == |w.defs|
    ensures Calc(w, c).visible == VisibleD(w, w.defs[c], w.rank(c), None)
    ensures Calc(w, c).rev == RevD(w, w.defs[c], Calc(w, c).visible, w.rank(c))
  {
    assert SymbolBelow(w, c);
  }

  /** What a choice that is on selects is y, and it is saved unless the choice selects it anyway. */
  lemma SelectedMember(w: World, optional: set<nat>, c: nat, m: nat)
    requires ModulesOff(w, optional) && c < |w.defs| == |w.input| && w.defs[c].isChoice && w.defs[c].typ != Unknown
    requires Calc(w, c).value.pick == Some(m)
    ensures SavesPick(w, optional, c, m) || (m < |w.defs| && SelectedByDefault(w, optional, m) && w.defs[m].choiceOf == Some(c))
  {
    hide SymbolBelow;
    SelectionMeansYes(w, c);
    SelectedIsVisible(w, c, m);
    MemberValue(w, m);
    MemberDefaultText(w, m);
    NamesDiffer();
  }

  lemma SelectedIsVisible(w: World, c: nat, m: nat)
    requires Acyclic(w) && w.mv == NO && c < |w.defs| == |w.input| && w.defs[c].isChoice && w.defs[c].typ != Unknown
    requires Calc(w, c).value.pick == Some(m)
    ensures m < |w.defs| && w.defs[m].choiceOf == Some(c) && w.defs[m].typ != Unknown && HasTri(w.defs[m]) && !w.defs[m].isChoice
    ensures Calc(w, m).visible == YES && Calc(w, m).rev == NO
  {
    assert SymbolBelow(w, c);
    SelectionMeansYes(w, c);
    ChoiceDefaultIsMember(w, c, 0);
    Family(w, m);
    MemberVisibilitySettles(w, m);
    CalcIsTyped(w, m);
  }

  lemma MemberDefaultText(w: World, m: nat)
    requires Acyclic(w) && m < |w.defs| == |w.input| && w.defs[m].choiceOf.Some? && w.defs[m].typ != Unknown
    ensures DefaultValueText(w, m) == Name(NO)
  {
    hide SymbolBelow;
    Family(w, m);
    assert ActiveDefault(w, w.defs[m], 0, w.rank(m), None) == None;
    assert DefaultTri(w, w.defs[m], w.rank(m)) == NO;
    assert Calc(w, m).rev == NO;
  }

  /** Only the selected member of a choice is saved with the value y. */
  lemma SavesOnlySelected(w: World, optional: set<nat>, c: nat, m: nat)
    requires ModulesOff(w, optional) && c < |w.defs| == |w.input| && SavesPick(w, optional, c, m)
    ensures Calc(w, c).value.pick == Some(m) && Calc(w, c).value.tri == YES
  {
    hide SymbolBelow;
    assert w.defs[m].typ != Unknown;
    MemberValue(w, m);
    CalcIsTyped(w, m);
    SelectionMeansYes(w, c);
  }

  // ---------- nothing else is saved ----------

  /** The user said nothing about the symbol. */
  ghost function Unsaid(w: World, s: nat): World
    requires s < |w.defs| == |w.input|
  {
    w.(input := w.input[s := w.input[s].(given := false)])
  }

  lemma UnsaidValue(w: World, s: nat)
    requires Acyclic(w) && s < |w.defs| && w.defs[s].typ != Unknown && !w.defs[s].isChoice && w.defs[s].choiceOf.None?
    ensures |w.input| == |w.defs|
    ensures HasTri(w.defs[s]) ==>
      Name(Calc(Unsaid(w, s), s).value.tri) == DefaultValueText(w, s) && ValueText(w, s) == Name(Calc(w, s).value.tri)
    ensures HasText(w.defs[s]) ==> Calc(Unsaid(w, s), s).value.str == DefaultValueText(w, s) && ValueText(w, s) == Calc(w, s).value.str
  {
    var v, d, r := Unsaid(w, s), w.defs[s], w.rank(s);
    SeenUnaffected(w, v, r);
    ConditionsUnaffected(w, v, s);
    CalcIsTyped(w, s);
    hide Acyclic, AgreeBelow, SameSeen, DefaultTri, DefaultText, RevD;
    var visible, rev := Calc(w, s).visible, Calc(w, s).rev;
    assert Calc(v, s).visible == visible && Calc(v, s).rev == rev;
    if HasTri(d) {
      assert OwnTri(v, s, visible) == DefaultTri(w, d, r);
      assert TriD(v, s, visible, rev) == Promoted(Max(DefaultTri(w, d, r), rev), d, visible, w.mv);
    } else {
      assert TextD(v, s, visible) == DefaultText(w, d, r);
    }
  }

  /** A symbol that can be changed is saved if and only if it would have another value if the user had
      said nothing about it. */
  lemma SavedIsNeeded(w: World, optional: set<nat>, s: nat)
    requires Acyclic(w) && s < |w.defs| && w.defs[s].typ != Unknown && !w.defs[s].isChoice && w.defs[s].choiceOf.None?
    ensures |w.input| == |w.defs|
    ensures Saves(w, optional, s) <==>
      Calc(w, s).visible > Calc(w, s).rev && Calc(Unsaid(w, s), s).value != Calc(w, s).value
  {
    UnsaidValue(w, s);
    NamesDiffer();
    ValueShape(w, s);
    ValueShape(Unsaid(w, s), s);
    hide Acyclic, DefaultValueText, ValueText;
  }

  lemma ValueShape(w: World, s: nat)
    requires s < |w.defs| == |w.input| && w.defs[s].typ != Unknown && !w.defs[s].isChoice
    ensures HasTri(w.defs[s]) ==> Calc(w, s).value == Value(Calc(w, s).value.tri, "n", None)
    ensures HasText(w.defs[s]) ==> Calc(w, s).value == Value(NO, Calc(w, s).value.str, None)
    ensures Calc(w, s).visible != NO ==> Calc(w, s).written
  {
  }

  /** The user picked nothing in the choice. */
  ghost function Unpicked(w: World, c: nat): World
    requires c < |w.defs| == |w.input|
  {
    w.(input := w.input[c := w.input[c].(given := false, pick := None)])
  }

  /** The selection of a choice that is not optional is saved if and only if it would select something
      else if the user had picked nothing; a tristate choice value is saved even then. */
  lemma SavedPickIsNeeded(w: World, optional: set<nat>, c: nat, m: nat)
    requires ModulesOff(w, optional) && c < |w.defs| == |w.input| && w.defs[c].isChoice && w.defs[c].typ != Unknown
    requires c !in optional && Calc(w, c).value.pick == Some(m)
    ensures m < |w.defs|
    ensures SavesPick(w, optional, c, m) <==> Calc(Unpicked(w, c), c).value.pick != Some(m) || w.defs[m].typ == Tristate
  {
    var v, r := Unpicked(w, c), w.rank(c);
    HeldChoiceIsOn(w, optional, c);
    SelectedMember(w, optional, c, m);
    SelectedIsVisible(w, c, m);
    SelectionMeansYes(w, c);
    ChoiceShape(w, c);
    SeenUnaffected(w, v, r);
    ConditionsUnaffected(w, v, c);
    ChoiceDefaultUnaffected(w, v, c, 0, r);
    hide Acyclic, AgreeBelow, SameSeen, ModulesOff, ChoiceDefaultD, RevD, VisibleD, MemberVisible;
    var visible, rev := Calc(w, c).visible, Calc(w, c).rev;
    ChoiceTri(w, c, visible, rev);
    ChoiceTri(v, c, visible, rev);
    assert PickD(v, c, r) == ChoiceDefaultD(w, c, 0, r);
    assert Calc(v, c).visible == visible && Calc(v, c).rev == rev;
    assert visible != NO ==> rev == YES;
    assert TriD(v, c, visible, rev) == YES;
    assert Calc(v, c).value.pick == ChoiceDefaultD(w, c, 0, r);
    DefaultSelectedIsNotSaved(w, optional, c, m);
  }

  lemma DefaultSelectedIsNotSaved(w: World, optional: set<nat>, c: nat, m: nat)
    requires c < |w.defs| == |w.input| && m < |w.defs| && w.defs[m].choiceOf == Some(c) && HasTri(w.defs[m])
    ensures SavesPick(w, optional, c, m) && c !in optional ==>
      ChoiceDefaultD(w, c, 0, w.rank(c)) != Some(m) || w.defs[m].typ == Tristate
    ensures SelectedByDefault(w, optional, m) ==>
      ChoiceDefaultD(w, c, 0, w.rank(c)) == Some(m) && w.defs[m].typ == Boolean
  {
    hide ChoiceDefaultD;
  }

  /** What the user said is lost where the symbol is visible, but selected at least as strongly: then
      it is not changeable, so it is not saved. This makes a difference for a text other than the
      default, and with modules for an m that is selected as m but y by default. */
  ghost predicate Lost(w: World, s: nat)
    requires s < |w.defs| == |w.input|
  {
    var d, o := w.defs[s], Calc(w, s);
    && !d.isChoice && d.choiceOf.None? && w.input[s].given && NO < o.visible <= o.rev
    && if HasText(d) then w.input[s].str != DefaultText(w, d, w.rank(s))
       else HasTri(d) && o.visible == o.rev == MOD && DefaultTri(w, d, w.rank(s)) == YES
  }

  ghost predicate NothingLost(w: World)
    requires |w.input| == |w.defs|
  {
    forall s :: 0 <= s < |w.defs| ==> !Lost(w, s)
  }

  ghost predicate NothingLostBelow(w: World, bound: nat)
    requires |w.input| == |w.defs|
  {
    forall s :: 0 <= s < |w.defs| && w.rank(s) < bound ==> !Lost(w, s)
  }

  /** A text keeps its value exactly if it is not lost. */
  lemma KeepsText(w: World, optional: set<nat>, v: World, s: nat)
    requires Acyclic(w) && Reloaded(w, optional, v) && s < |w.defs| && SameSeen(w, v, w.rank(s))
    requires HasText(w.defs[s]) && w.defs[s].choiceOf.None? && !w.defs[s].isChoice
    ensures !Lost(w, s) ==> Calc(v, s) == Calc(w, s)
    ensures Lost(w, s) ==> Calc(v, s).value.str == DefaultText(w, w.defs[s], w.rank(s)) != w.input[s].str == Calc(w, s).value.str
  {
    hide Acyclic;
    ConditionsUnaffected(w, v, s);
    var d, visible, rev := w.defs[s], Calc(w, s).visible, Calc(w, s).rev;
    assert Restored(w, optional, s, v.input[s]);
    CalcIsTyped(w, s);
    assert rev == RevD(w, d, visible, w.rank(s)) && Calc(w, s).written == WrittenD(w, s, visible, rev);
    assert Calc(w, s).value.str == TextD(w, s, visible);
    assert Calc(v, s).visible == VisibleD(v, d, w.rank(s), None) == visible && Calc(v, s).rev == rev;
    assert Calc(v, s).value.str == TextD(v, s, visible);
    assert !Lost(w, s) ==> TextD(v, s, visible) == TextD(w, s, visible);
    assert WrittenD(v, s, visible, rev) == WrittenD(w, s, visible, rev);
  }

  lemma PlainTri(w: World, s: nat, visible: Tri, rev: Tri)
    requires s < |w.defs| == |w.input| && w.defs[s].choiceOf.None? && !w.defs[s].isChoice
    ensures var d, u := w.defs[s], w.input[s];
      var own: Tri := if visible != NO && u.given then Min(u.tri, visible) else DefaultTri(w, d, w.rank(s));
      TriD(w, s, visible, rev) == Promoted(Max(own, rev), d, visible, w.mv)
  {
  }

  /** A boolean or tristate outside choices keeps its value, with or without modules, exactly if it
      is not lost in this way. */
  lemma KeepsTri(w: World, optional: set<nat>, v: World, s: nat)
    requires Acyclic(w) && Reloaded(w, optional, v) && s < |w.defs| && SameSeen(w, v, w.rank(s))
    requires HasTri(w.defs[s]) && w.defs[s].choiceOf.None? && !w.defs[s].isChoice
    ensures !Lost(w, s) ==> Calc(v, s) == Calc(w, s)
    ensures Lost(w, s) ==> Calc(v, s).value.tri == YES && Calc(w, s).value.tri == MOD
  {
    hide Acyclic;
    NamesDiffer();
    CalcIsTyped(w, s);
    ConditionsUnaffected(w, v, s);
    var visible, rev := Calc(w, s).visible, Calc(w, s).rev;
    assert Restored(w, optional, s, v.input[s]);
    assert Calc(v, s).rev == rev && Calc(v, s).visible == visible;
    var d, own := w.defs[s], DefaultTri(w, w.defs[s], w.rank(s));
    var t, u := TriD(w, s, visible, rev), TriD(v, s, visible, rev);
    PlainTri(w, s, visible, rev);
    PlainTri(v, s, visible, rev);
    assert Calc(w, s).value.tri == t && Calc(w, s).written == WrittenD(w, s, visible, rev);
    assert ValueText(w, s) == DefaultValueText(w, s) ==> t == DefaultTristate(d, own, rev, w.mv);
    assert !Lost(w, s) ==> TriD(v, s, visible, rev) == TriD(w, s, visible, rev);
    assert WrittenD(v, s, visible, rev) == WrittenD(w, s, visible, rev);
  }

  lemma KeepsMember(w: World, optional: set<nat>, v: World, s: nat)
    requires ModulesOff(w, optional) && Reloaded(w, optional, v) && s < |w.defs| && SameSeen(w, v, w.rank(s))
    requires w.defs[s].choiceOf.Some? && w.defs[s].typ != Unknown
    ensures Calc(v, s) == Calc(w, s)
  {
    hide Acyclic;
    Family(w, s);
    CalcIsTyped(w, s);
    ConditionsUnaffected(w, v, s);
    var d, r, visible := w.defs[s], w.rank(s), Calc(w, s).visible;
    assert Seen(w, d.choiceOf.value, r, None) == Seen(v, d.choiceOf.value, r, None);
    assert ActiveDefault(w, d, 0, r, None) == None;
    assert OwnTri(v, s, NO) == OwnTri(w, s, NO);
    assert TriD(v, s, visible, NO) == TriD(w, s, visible, NO);
    assert WrittenD(v, s, visible, NO) == WrittenD(w, s, visible, NO);
  }

  /** The tristate of a choice before it selects a member. */
  ghost function OwnChoiceTri(w: World, c: nat): Tri
    requires c < |w.defs| == |w.input|
  {
    TriD(w, c, Calc(w, c).visible, Calc(w, c).rev)
  }

  lemma ChoiceOutcome(w: World, c: nat)
    requires c < |w.defs| == |w.input| && w.defs[c].isChoice && HasTri(w.defs[c]) && w.defs[c].choiceOf.None? && w.mv == NO
    ensures var o, t := Calc(w, c), OwnChoiceTri(w, c);
      && t != MOD && o.rev != MOD && o.visible != MOD
      && (t == YES <==> o.rev == YES || (o.visible == YES && w.input[c].given && w.input[c].tri != NO))
      && o.value == (if t == NO then NOTHING
                     else var p := PickD(w, c, w.rank(c)); Value(if p.None? then NO else YES, "n", p))
      && o.written == (o.visible != NO || o.rev != NO)
      && o.dir == DirD(w, w.defs[c], w.rank(c))
  {
    var d, r := w.defs[c], w.rank(c);
    var visible := VisibleD(w, d, r, None);
    assert RevD(w, d, visible, r) != MOD;
    assert OwnTri(w, c, visible) == if visible != NO && w.input[c].given then Min(w.input[c].tri, visible) else NO;
  }

  /** A choice that is not optional is on after reloading exactly when it was before; an optional
      one is if it had a selection. */
  lemma SameChoiceTri(w: World, optional: set<nat>, v: World, c: nat)
    requires ModulesOff(w, optional) && Reloaded(w, optional, v) && c < |w.defs| && SameSeen(w, v, w.rank(c))
    requires w.defs[c].isChoice && w.defs[c].typ != Unknown
    ensures Calc(v, c).visible == Calc(w, c).visible && Calc(v, c).rev == Calc(w, c).rev && Calc(v, c).dir == Calc(w, c).dir
    ensures OwnChoiceTri(v, c) == OwnChoiceTri(w, c)
         || (OwnChoiceTri(v, c) == NO && Calc(w, c).value == NOTHING)
  {
    ChoiceShape(w, c);
    hide SymbolBelow, Acyclic, TriD, PickD;
    ConditionsUnaffected(w, v, c);
    assert v.defs[c] == w.defs[c] && v.rank(c) == w.rank(c);
    ChoiceOutcome(w, c);
    ChoiceOutcome(v, c);
    if c !in optional { HeldChoiceIsOn(w, optional, c); }
    assert Restored(w, optional, c, v.input[c]);
    var pick := Calc(w, c).value.pick;
    if pick.Some? {
      SelectedMember(w, optional, c, pick.value);
    }
    if v.input[c].pick.Some? {
      SavesOnlySelected(w, optional, c, v.input[c].pick.value);
    }
  }

  /** The selection comes back, from the file or as the default. */
  lemma SamePick(w: World, optional: set<nat>, v: World, c: nat)
    requires ModulesOff(w, optional) && Reloaded(w, optional, v) && c < |w.defs| && SameSeen(w, v, w.rank(c))
    requires w.defs[c].isChoice && w.defs[c].typ != Unknown && OwnChoiceTri(w, c) == YES
    ensures PickD(v, c, w.rank(c)) == PickD(w, c, w.rank(c))
  {
    ChoiceShape(w, c);
    hide SymbolBelow, Acyclic, TriD, OwnChoiceTri, SavesPick;
    ChoiceOutcome(w, c);
    ChoiceDefaultUnaffected(w, v, c, 0, w.rank(c));
    var pick, u := PickD(w, c, w.rank(c)), v.input[c];
    assert Calc(w, c).value.pick == pick;
    assert Restored(w, optional, c, u);
    if u.pick.Some? {
      SavesOnlySelected(w, optional, c, u.pick.value);
      SelectedIsVisible(w, c, u.pick.value);
      MemberVisibleUnaffected(w, v, u.pick.value, w.rank(c), c);
      SelectionMeansYes(w, c);
      MemberVisibilitySettles(w, u.pick.value);
    } else if pick.Some? {
      SelectedMember(w, optional, c, pick.value);
      assert ChoiceDefaultD(w, c, 0, w.rank(c)) == pick;
    }
  }

  lemma KeepsChoice(w: World, optional: set<nat>, v: World, c: nat)
    requires ModulesOff(w, optional) && Reloaded(w, optional, v) && c < |w.defs| && SameSeen(w, v, w.rank(c))
    requires w.defs[c].isChoice && w.defs[c].typ != Unknown
    ensures Calc(v, c) == Calc(w, c)
  {
    ChoiceShape(w, c);
    hide SymbolBelow, Acyclic, TriD, OwnChoiceTri, PickD, Restored;
    assert v.defs[c] == w.defs[c];
    ChoiceOutcome(w, c);
    ChoiceOutcome(v, c);
    SameChoiceTri(w, optional, v, c);
    if OwnChoiceTri(w, c) == YES { SamePick(w, optional, v, c); }
  }

  // ---------- all values ----------

  ghost predicate ChoiceFree(w: World) {
    forall s :: 0 <= s < |w.defs| ==> !w.defs[s].isChoice && w.defs[s].choiceOf.None?
  }

  /** Tables for which reading back is shown to work: those without modules, and with modules those
      without choices. */
  ghost predicate Savable(w: World, optional: set<nat>) {
    ModulesOff(w, optional) || (Acyclic(w) && ChoiceFree(w))
  }

  /** Reading back what was saved gives a symbol the outcome it had, although defaults and values the
      user cannot change were left out, if nothing is lost on it or on what it may read. */
  lemma {:induction false} ReloadKeeps(w: World, optional: set<nat>, v: World, s: nat)
    requires Savable(w, optional) && Reloaded(w, optional, v) && s < |w.defs|
    requires NothingLostBelow(w, w.rank(s)) && !Lost(w, s)
    ensures Calc(v, s) == Calc(w, s)
    decreases w.rank(s), 1
  {
    ReloadKeepsSeen(w, optional, v, w.rank(s));
    var d := w.defs[s];
    assert SymbolBelow(w, s);
    if d.typ != Unknown {
      if d.isChoice {
        KeepsChoice(w, optional, v, s);
      } else if d.choiceOf.Some? {
        KeepsMember(w, optional, v, s);
      } else if HasText(d) {
        KeepsText(w, optional, v, s);
      } else {
        KeepsTri(w, optional, v, s);
      }
    }
  }

  lemma {:induction false} ReloadKeepsSeen(w: World, optional: set<nat>, v: World, bound: nat)
    requires Savable(w, optional) && Reloaded(w, optional, v) && NothingLostBelow(w, bound)
    ensures SameSeen(w, v, bound)
    decreases bound, 0
  {
    forall id: nat
      ensures Seen(w, id, bound, None) == Seen(v, id, bound, None)
    {
      if id < |w.defs| && w.rank(id) < bound { ReloadKeeps(w, optional, v, id); }
    }
  }

  /** All values come back if and only if nothing is lost. */
  lemma ReloadKeepsAll(w: World, optional: set<nat>, v: World)
    requires Savable(w, optional) && Reloaded(w, optional, v)
    ensures (forall s: nat :: s < |w.defs| ==> Calc(v, s).value == Calc(w, s).value) <==> NothingLost(w)
  {
    if NothingLost(w) {
      forall s: nat | s < |w.defs|
        ensures Calc(v, s).value == Calc(w, s).value
      {
        ReloadKeeps(w, optional, v, s);
      }
    } else {
      var k := LossShows(w, optional, v);
    }
  }

  /** Where something is lost, a lost symbol that reads no other lost one changes its value. */
  lemma LossShows(w: World, optional: set<nat>, v: World) returns (k: nat)
    requires Savable(w, optional) && Reloaded(w, optional, v) && !NothingLost(w)
    ensures k < |w.defs| && Lost(w, k) && Calc(v, k).value != Calc(w, k).value
  {
    var s: nat :| s < |w.defs| && Lost(w, s);
    k := LowestLoss(w, s);
    ReloadKeepsSeen(w, optional, v, w.rank(k));
    if HasText(w.defs[k]) { KeepsText(w, optional, v, k); } else { KeepsTri(w, optional, v, k); }
  }

  lemma {:induction false} LowestLoss(w: World, s: nat) returns (k: nat)
    requires s < |w.defs| == |w.input| && Lost(w, s)
    ensures k < |w.defs| && Lost(w, k) && NothingLostBelow(w, w.rank(k))
    decreases w.rank(s)
  {
    hide Lost;
    if q: nat :| q < |w.defs| && w.rank(q) < w.rank(s) && Lost(w, q) {
      k := LowestLoss(w, q);
    } else {
      k := s;
    }
  }

  /** Without modules only texts are lost. */
  lemma OnlyTextsLost(w: World, s: nat)
    requires s < |w.defs| == |w.input| && w.mv == NO && Lost(w, s)
    ensures HasText(w.defs[s]) && w.defs[s].revDep.Some?
  {
    CalcIsTyped(w, s);
  }

  /** A string with a prompt that something selects, which the parser only warns about, loses its
      text. */
  lemma TextLost(w: World, v: World)
    requires w.defs == [Def("MODULES", Boolean, [], [], None, None, false, [], None),
                        Def("NAME", String, [None], [], None, Some(Symbol(Yes)), false, [], None)]
    requires w.input == [Input(false, NO, "", None), Input(true, NO, "x", None)]
    requires w.modules == 0 && w.mv == NO && w.rank(0) < w.rank(1) && Reloaded(w, {}, v)
    ensures Acyclic(w) && ModulesAgree(w)
    ensures Calc(w, 1).value.str == "x" && Calc(v, 1).value.str == ""
  {
    var m, d := w.defs[0], w.defs[1];
    assert d.prompts[..|d.prompts| - 1] == [];
    assert Strongest(w, [], w.rank(0), None) == NO && Strongest(w, [], w.rank(1), None) == NO;
    assert Strongest(w, d.prompts, w.rank(1), None) == YES;
    assert Tris(w, Symbol(Yes), w.rank(1), None) == YES;
    assert ActiveDefault(w, m, 0, w.rank(0), None) == None && ActiveDefault(w, d, 0, w.rank(1), None) == None;
    assert OwnTri(w, 0, NO) == NO;
    assert Calc(w, 0).value.tri == NO;
    assert Calc(w, 1).visible == YES && Calc(w, 1).rev == YES;
    assert Lost(w, 1);
    forall id: nat
      ensures Seen(w, id, w.rank(1), None) == Seen(v, id, w.rank(1), None)
    {
      if id == 0 { KeepsModules(w, v); }
    }
    KeepsText(w, {}, v, 1);
  }

  lemma StrongestOfOne(w: World, e: Option<Expr>, bound: nat)
    ensures Strongest(w, [e], bound, None) == TrisOpt(w, e, bound, None)
  {
    assert [e][..|[e]| - 1] == [];
  }

  lemma ConstantValues(w: World, bound: nat)
    ensures Tris(w, Symbol(Mod), bound, None) == MOD && Tris(w, Symbol(Yes), bound, None) == YES
    ensures TrisOpt(w, None, bound, None) == YES && TrisOpt(w, Some(Symbol(Mod)), bound, None) == MOD
  {
    assert SymTri(w, Mod, bound, None) == MOD && SymTri(w, Yes, bound, None) == YES;
  }

  ghost predicate HasDriver(w: World) {
    && w.defs == [Def("MODULES", Boolean, [None], [], None, None, false, [], None),
                  Def("DRIVER", Tristate, [Some(Symbol(Mod))], [Default(Symbol(Yes), None)], None, Some(Symbol(Mod)), false, [], None)]
    && w.input == [Input(true, YES, "", None), Input(true, MOD, "", None)]
    && w.modules == 0 && w.mv == YES && w.rank(0) < w.rank(1)
  }

  lemma DriverModules(w: World)
    requires HasDriver(w)
    ensures Calc(w, 0).value.tri == YES
  {
    StrongestOfOne(w, None, w.rank(0));
    ConstantValues(w, w.rank(0));
    assert VisibleD(w, w.defs[0], w.rank(0), None) == YES;
    assert OwnTri(w, 0, YES) == YES;
  }

  lemma DriverOwn(w: World)
    requires HasDriver(w)
    ensures Calc(w, 1).visible == MOD && Calc(w, 1).rev == MOD && DefaultTri(w, w.defs[1], w.rank(1)) == YES
  {
    var d, r := w.defs[1], w.rank(1);
    StrongestOfOne(w, Some(Symbol(Mod)), r);
    ConstantValues(w, r);
    hide Tris, TrisOpt, Strongest;
    assert ActiveDefault(w, d, 0, r, None) == Some(0);
    assert VisibleD(w, d, r, None) == MOD;
  }

  /** Something can be lost: a tristate with a prompt that is m, selected by m, with default y. */
  lemma ValueLost(w: World, v: World)
    requires HasDriver(w) && Reloaded(w, {}, v)
    ensures Acyclic(w) && ModulesAgree(w)
    ensures Calc(w, 1).value.tri == MOD && Calc(v, 1).value.tri == YES
  {
    DriverModules(w);
    DriverOwn(w);
    assert Lost(w, 1);
    assert Acyclic(w);
    forall id: nat
      ensures Seen(w, id, w.rank(1), None) == Seen(v, id, w.rank(1), None)
    {
      if id == 0 { KeepsModules(w, v); }
    }
    KeepsTri(w, {}, v, 1);
  }

  /** The lowest symbol of a table sees nothing, so it keeps its value. */
  lemma KeepsModules(w: World, v: World)
    requires Acyclic(w) && Reloaded(w, {}, v) && |w.defs| > 0 && w.defs[0].typ == Boolean
    requires !w.defs[0].isChoice && w.defs[0].choiceOf.None? && forall s :: 0 <= s < |w.defs| ==> w.rank(0) <= w.rank(s)
    ensures Calc(v, 0) == Calc(w, 0)
  {
    assert SameSeen(w, v, w.rank(0));
    CalcIsTyped(w, 0);
    KeepsTri(w, {}, v, 0);
  }
}
