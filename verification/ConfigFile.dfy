/** Saving a table as a minimal configuration file and loading it: conf_write_defconfig and
    conf_read_simple of support/kconfig/confdata.c. */
module ConfigFile {
  import opened Tristates
  import opened Wrappers
  import opened Expressions
  import opened Calculation
  import opened UserValues
  import opened ConfigLines
  import opened Defconfig
  import Escape
  import T = SymbolTable

  // ---------- what is written ----------

  ghost predicate Listed(defs: seq<Def>, order: seq<nat>) {
    forall k :: 0 <= k < |order| ==> order[k] < |defs|
  }

  /** The lines for the symbols of the menu entries, in order; each symbol is written once. */
  ghost function Lines(w: World, optional: set<nat>, order: seq<nat>): seq<string>
    requires WellFormed(w) && Listed(w.defs, order)
  {
    if order == [] then []
    else
      var init, s := order[..|order| - 1], order[|order| - 1];
      Lines(w, optional, init) + if s !in init && Saves(w, optional, s) then [Line(w.defs[s], ValueText(w, s))] else []
  }

  /** User texts are such that the program accepts them, and fit on a line. */
  ghost predicate SaneInput(w: World)
    requires WellFormed(w)
  {
    forall s :: 0 <= s < |w.defs| && w.input[s].given && HasText(w.defs[s]) ==> Sane(w.defs[s], w.input[s].str)
  }

  /** Every symbol with a prompt has a menu entry. */
  ghost predicate PromptsListed(defs: seq<Def>, order: seq<nat>) {
    forall s :: 0 <= s < |defs| && defs[s].prompts != [] ==> s in order
  }

  /** A choice value is only saved as y. */
  ghost predicate PicksAreYes(w: World, optional: set<nat>)
    requires WellFormed(w)
  {
    forall m :: 0 <= m < |w.defs| && w.defs[m].choiceOf.Some? && Saves(w, optional, m) ==>
      && Calc(w, m).value.tri == YES && HasTri(w.defs[m])
      && w.defs[m].choiceOf.value < |w.defs| && w.defs[w.defs[m].choiceOf.value].isChoice
  }

  /** A text is the user's or the default. */
  lemma TextIsInput(w: World, s: nat)
    requires s < |w.defs| == |w.input| && HasText(w.defs[s])
    ensures Calc(w, s).value.str ==
      if Calc(w, s).visible != NO && w.input[s].given then w.input[s].str else DefaultText(w, w.defs[s], w.rank(s))
  {
  }

  /** What is saved is sane. */
  lemma SavedIsSane(w: World, optional: set<nat>, s: nat)
    requires WellFormed(w) && s < |w.defs| && Saves(w, optional, s) && SaneInput(w)
    requires w.defs[s].choiceOf.Some? ==> HasTri(w.defs[s])
    ensures Sane(w.defs[s], ValueText(w, s))
    ensures HasText(w.defs[s]) ==> ValueText(w, s) == Calc(w, s).value.str
    ensures HasTri(w.defs[s]) ==> Given(w.defs[s], Input(false, NO, "", None), ValueText(w, s)).tri == Calc(w, s).value.tri
  {
    var d := w.defs[s];
    NamesOf();
    CalcIsTyped(w, s);
    assert d.typ != Unknown;
    if HasText(d) {
      TextIsInput(w, s);
    }
  }

  /** Selected members of choices are y without modules; without choices there is nothing to show. */
  lemma SavedPicksAreYes(w: World, optional: set<nat>)
    requires ModulesOff(w, optional)
    ensures WellFormed(w) && PicksAreYes(w, optional)
  {
    hide SymbolBelow;
    forall m | 0 <= m < |w.defs| && w.defs[m].choiceOf.Some? && Saves(w, optional, m)
      ensures Calc(w, m).value.tri == YES && HasTri(w.defs[m])
      ensures w.defs[m].choiceOf.value < |w.defs| && w.defs[w.defs[m].choiceOf.value].isChoice
    {
      assert w.defs[m].typ != Unknown;
      Family(w, m);
      CalcIsTyped(w, m);
      MemberDefaultText(w, m);
    }
  }

  // ---------- what is read ----------

  /** The input after reading the lines. */
  ghost function Restore(w: World, optional: set<nat>, order: seq<nat>): (r: seq<Input>)
    requires WellFormed(w) && Listed(w.defs, order)
    ensures |r| == |w.defs|
  {
    if order == [] then Blank(w.defs)
    else
      var init, s := order[..|order| - 1], order[|order| - 1];
      var input := Restore(w, optional, init);
      if s !in init && Saves(w, optional, s) then
        MarkChoiceOf(w.defs, input[s := Given(w.defs[s], input[s], ValueText(w, s))], s)
      else input
  }

  lemma {:induction false} ReadsAll(w: World, optional: set<nat>, order: seq<nat>)
    requires WellFormed(w) && Listed(w.defs, order)
    requires Named(w.defs) && SaneInput(w) && PicksAreYes(w, optional)
    ensures ReadAll(w.defs, Lines(w, optional, order)) == Restore(w, optional, order)
  {
    hide Saves, ReadLine, Line, Given, MarkChoiceOf, Named, SaneInput;
    if order != [] {
      var init, s := order[..|order| - 1], order[|order| - 1];
      ReadsAll(w, optional, init);
      if s !in init && Saves(w, optional, s) {
        var lines, line := Lines(w, optional, init), Line(w.defs[s], ValueText(w, s));
        SavedIsSane(w, optional, s);
        SavedIsNoChoice(w, optional, s);
        ReadsBack(w.defs, ReadAll(w.defs, lines), s, ValueText(w, s));
        assert (lines + [line])[..|lines + [line]| - 1] == lines;
      } else {
        assert Lines(w, optional, init) + [] == Lines(w, optional, init);
      }
    }
  }

  lemma SavedIsNoChoice(w: World, optional: set<nat>, s: nat)
    requires s < |w.defs| == |w.input| && Saves(w, optional, s)
    ensures !w.defs[s].isChoice && w.defs[s].prompts != []
  {
    assert Calc(w, s).visible != NO;
    if w.defs[s].prompts == [] { NoPromptInvisible(w, s); }
  }

  lemma NoPromptInvisible(w: World, s: nat)
    requires s < |w.defs| == |w.input| && w.defs[s].prompts == []
    ensures Calc(w, s).visible == NO
  {
    assert Strongest(w, [], w.rank(s), None) == NO;
    assert VisibleD(w, w.defs[s], w.rank(s), None) == NO;
  }

  /** Restored, as far as the symbols in order go. */
  ghost predicate PartlyRestored(w: World, optional: set<nat>, order: seq<nat>, s: nat, u: Input)
    requires s < |w.defs| == |w.input|
  {
    var d := w.defs[s];
    if d.isChoice then
      if u.pick.Some? then u.given && u.tri == YES && SavesPick(w, optional, s, u.pick.value)
      else u.given && u.tri == NO && forall m :: m in order ==> !SavesPick(w, optional, s, m)
    else
      && u.given == (s in order && Saves(w, optional, s))
      && (u.given && HasTri(d) ==> u.tri == Calc(w, s).value.tri)
      && (u.given && HasText(d) ==> u.str == Calc(w, s).value.str)
  }

  lemma BlankIsRestored(w: World, optional: set<nat>, k: nat)
    requires k < |w.defs| == |w.input|
    ensures PartlyRestored(w, optional, [], k, Blank(w.defs)[k])
  {
  }

  /** One line more. */
  lemma OneMoreRestored(w: World, optional: set<nat>, init: seq<nat>, s: nat, input: seq<Input>, k: nat)
    requires WellFormed(w) && |input| == |w.defs| && s < |w.defs| && k < |w.defs| && s !in init
    requires Saves(w, optional, s) && SaneInput(w) && PicksAreYes(w, optional)
    requires forall j :: 0 <= j < |w.defs| ==> PartlyRestored(w, optional, init, j, input[j])
    ensures PartlyRestored(w, optional, init + [s], k,
              MarkChoiceOf(w.defs, input[s := Given(w.defs[s], input[s], ValueText(w, s))], s)[k])
  {
    hide Calc, ValueText, DefaultValueText, Sane, SaneInput;
    SavedIsSane(w, optional, s);
    SavedIsNoChoice(w, optional, s);
    var given := Given(w.defs[s], input[s], ValueText(w, s));
    assert PartlyRestored(w, optional, init, s, input[s]);
    assert PartlyRestored(w, optional, init, k, input[k]);
    assert given.given && (HasTri(w.defs[s]) ==> given.tri == Calc(w, s).value.tri);
    if w.defs[s].choiceOf.Some? {
      assert SavesPick(w, optional, w.defs[s].choiceOf.value, s);
    }
  }

  lemma {:induction false} RestoresListed(w: World, optional: set<nat>, order: seq<nat>, k: nat)
    requires WellFormed(w) && Listed(w.defs, order) && k < |w.defs| && SaneInput(w) && PicksAreYes(w, optional)
    ensures PartlyRestored(w, optional, order, k, Restore(w, optional, order)[k])
    decreases |order|
  {
    hide Saves, SaneInput, PicksAreYes, MarkChoiceOf, Given;
    if order == [] {
      BlankIsRestored(w, optional, k);
    } else {
      var init, s := order[..|order| - 1], order[|order| - 1];
      assert order == init + [s];
      if s !in init && Saves(w, optional, s) {
        forall j: nat | j < |w.defs|
          ensures PartlyRestored(w, optional, init, j, Restore(w, optional, init)[j])
        {
          RestoresListed(w, optional, init, j);
        }
        OneMoreRestored(w, optional, init, s, Restore(w, optional, init), k);
      } else {
        RestoresListed(w, optional, init, k);
      }
    }
  }

  /** The world after saving and loading. */
  ghost function LoadedWorld(w: World, optional: set<nat>, order: seq<nat>): World
    requires WellFormed(w) && Listed(w.defs, order)
  {
    w.(input := Restore(w, optional, order))
  }

  lemma LoadedIsReloaded(w: World, optional: set<nat>, order: seq<nat>)
    requires WellFormed(w) && Listed(w.defs, order) && PromptsListed(w.defs, order)
    requires SaneInput(w) && PicksAreYes(w, optional)
    ensures Reloaded(w, optional, LoadedWorld(w, optional, order))
  {
    hide Saves, SaneInput, PicksAreYes;
    var v := LoadedWorld(w, optional, order);
    forall s: nat | s < |w.defs|
      ensures Restored(w, optional, s, v.input[s])
    {
      RestoresListed(w, optional, order, s);
      if Saves(w, optional, s) { SavedIsNoChoice(w, optional, s); }
      forall m | SavesPick(w, optional, s, m)
        ensures m in order
      {
        SavedIsNoChoice(w, optional, m);
      }
    }
  }

  /** The loaded table is as acyclic as the saved one; if nothing is lost it agrees with modules_val
      as well and has the same outcomes. */
  lemma LoadedIsAcyclic(w: World, optional: set<nat>, order: seq<nat>)
    requires ModulesOff(w, optional)
    requires Listed(w.defs, order) && PromptsListed(w.defs, order) && SaneInput(w)
    ensures var v := LoadedWorld(w, optional, order);
      && Reloaded(w, optional, v) && Acyclic(v)
      && (NothingLost(w) ==> forall s: nat :: s < |w.defs| ==> Calc(v, s) == Calc(w, s))
      && (NothingLost(w) && ModulesAgree(w) ==> ModulesAgree(v))
  {
    hide SymbolBelow, Saves, SaneInput;
    var v := LoadedWorld(w, optional, order);
    SavedPicksAreYes(w, optional);
    LoadedIsReloaded(w, optional, order);
    if NothingLost(w) {
      forall s: nat | s < |w.defs|
        ensures Calc(v, s) == Calc(w, s)
      {
        ReloadKeeps(w, optional, v, s);
      }
    }
    forall s | 0 <= s < |w.defs|
      ensures SymbolBelow(v, s)
    {
      assert SymbolBelow(w, s);
      PickAmongMembers(w, optional, v, s);
      SameBelow(w, v, s);
    }
  }

  lemma PickAmongMembers(w: World, optional: set<nat>, v: World, s: nat)
    requires ModulesOff(w, optional) && Reloaded(w, optional, v) && s < |w.defs|
    ensures v.input[s].pick.Some? && w.defs[s].isChoice ==> v.input[s].pick.value in w.defs[s].members
  {
    hide SymbolBelow;
    assert Restored(w, optional, s, v.input[s]);
    if w.defs[s].isChoice && v.input[s].pick.Some? {
      var m := v.input[s].pick.value;
      assert SavesPick(w, optional, s, m) && w.defs[m].typ != Unknown;
      Family(w, m);
    }
  }

  // ---------- saving a calculated table ----------

  /** The table is right for the world w, and nothing is being calculated. */
  ghost predicate Ready(t: T.Table, w: World)
    reads t
  {
    t.Shape() && t.About(w) && T.Sound(w, t.Now(), {}) && WellFormed(w) && ModulesAgree(w)
  }

  lemma ReadyAfter(t: T.Table, a: T.State, w: World, bound: nat)
    requires t.Shape() && t.About(w) && T.Right(w, a, t.Now(), {}, bound) && WellFormed(w) && ModulesAgree(w)
    ensures Ready(t, w)
  {
  }

  lemma ReadyFacts(t: T.Table, w: World, s: nat)
    requires Ready(t, w) && s in t.valid
    ensures s < |w.defs| == |w.input| && |t.curr| == |t.visible| == |t.rev| == |w.defs| && WellFormed(w) && t.modulesVal == w.mv
    ensures t.curr[s] == Calc(w, s).value
    ensures w.defs[s].typ != Unknown ==> t.visible[s] == Calc(w, s).visible && t.rev[s] == Calc(w, s).rev
    ensures w.defs[s].typ != Unknown && w.defs[s].choiceOf.None? ==> (s in t.written <==> Calc(w, s).written)
  {
    assert T.Settled(w, t.Now(), s);
  }

  lemma ReadableNow(t: T.Table, w: World, bound: nat)
    requires Ready(t, w)
    ensures t.Reading(w, {}, bound, None)
  {
  }

  /** sym_get_string_default of a calculated symbol. */
  method StringDefault(t: T.Table, s: nat, ghost w: World) returns (r: string)
    requires Ready(t, w) && s in t.valid && s < |t.defs| && !t.defs[s].isChoice && t.defs[s].typ != Unknown
    modifies t
    ensures Ready(t, w) && old(t.valid) <= t.valid && r == DefaultValueText(w, s)
  {
    hide T.Sound, T.Grows, T.KnownDefs, T.Right, T.ValuesRight, T.ConditionsValid, ModulesAgree, SymbolBelow, T.Open, T.KnownOpt, T.SameSizes;
    ghost var bound := w.rank(s);
    T.BodyFacts(w, t.Now(), {}, s);
    ReadableNow(t, w, bound);
    ghost var t0 := t.Now();
    t.CalcVisibility(s, w, {}, true, bound, None);
    ReadyAfter(t, t0, w, bound);
    ghost var t1 := t.Now();
    t.CalcValue(t.modules, w, {}, true);
    ReadyAfter(t, t1, w, w.rank(t.modules) + 1);
    ReadableNow(t, w, bound);
    ReadyFacts(t, w, s);
    ReadyFacts(t, w, t.modules);
    T.ModulesRight(w, t.Now(), {});
    ghost var t2 := t.Now();
    var d := t.defs[s];
    if HasTri(d) {
      var selected, modules := t.rev[s], t.curr[t.modules].tri;
      var val, found := t.DefaultTriValue(s, w, {}, true);
      ReadyAfter(t, t2, w, bound);
      r := Name(DefaultTristate(d, val, selected, modules));
    } else {
      r := "";
      var i, cond := t.FindDefault(s, w, {}, true, bound);
      ReadyAfter(t, t2, w, bound);
      if i.Some? && d.defaults[i.value].value.Symbol? {
        T.DefaultKnown(t.defs, s, i.value);
        T.DefaultBelow(w, d, i.value, bound, None);
        ReadableNow(t, w, bound);
        ghost var t3 := t.Now();
        assert Below(w, d.defaults[i.value].value, bound, None);
        r := t.RawValue(d.defaults[i.value].value.sym, w, {}, true, bound);
        ReadyAfter(t, t3, w, bound);
      }
    }
  }

  /** While a choice is y, the stored visibility of its members is what the choice saw. */
  lemma MembersAsSeen(t: T.Table, w: World, c: nat)
    requires Ready(t, w) && c in t.valid && c < |w.defs| && w.defs[c].isChoice && w.defs[c].typ != Unknown
    requires |w.input| == |w.defs| && Calc(w, c).value.tri == YES
    ensures T.MembersLooked(w, t.Now(), c, |w.defs[c].members|)
  {
    assert T.MembersReady(w, t.Now(), c);
    assert SymbolBelow(w, c);
    forall j | 0 <= j < |w.defs[c].members|
      ensures w.defs[c].members[j] < |w.defs|
      ensures t.visible[w.defs[c].members[j]] == MemberVisible(w, w.defs[c].members[j], w.rank(c), c)
    {
      var m := w.defs[c].members[j];
      assert m in w.defs[c].members;
      assert T.MemberReady(w, t.Now(), m, c);
    }
  }

  /** A condition that a choice which is y reads has its final value. */
  lemma ChoiceConditionSettles(w: World, c: nat, i: nat)
    requires Acyclic(w) && c < |w.defs| == |w.input| && w.defs[c].isChoice && w.defs[c].typ != Unknown
    requires Calc(w, c).value.tri == YES && i < |w.defs[c].defaults|
    ensures var e := w.defs[c].defaults[i].cond;
      BelowOpt(w, e, w.rank(c) + 1, None) && TrisOpt(w, e, w.rank(c) + 1, None) == TrisOpt(w, e, w.rank(c), Some(c))
  {
    assert SymbolBelow(w, c);
    var x := w.defs[c].defaults[i];
    assert x in w.defs[c].defaults && HasTri(w.defs[c]);
    if x.cond.Some? {
      BelowHigher(w, x.cond.value, w.rank(c), Some(c), w.rank(c) + 1);
      TrisAgree(w, x.cond.value, w.rank(c), Some(c), w.rank(c) + 1);
    }
  }

  /** sym_choice_default of a calculated choice. */
  method DefaultSelection(t: T.Table, c: nat, ghost w: World) returns (r: Option<nat>)
    requires Ready(t, w) && c in t.valid && c < |t.defs| && t.defs[c].isChoice && t.defs[c].typ != Unknown
    requires |w.input| == |w.defs| && Calc(w, c).value.tri == YES
    modifies t
    ensures Ready(t, w) && old(t.valid) <= t.valid && r == ChoiceDefaultD(w, c, 0, w.rank(c))
  {
    hide T.Sound, T.Grows, T.KnownDefs, T.Right, Calc, T.MembersLooked, MemberVisible;
    var d := t.defs[c];
    ghost var bound := w.rank(c) + 1;
    var i := 0;
    while i < |d.defaults|
      invariant 0 <= i <= |d.defaults|
      invariant Ready(t, w) && old(t.valid) <= t.valid
      invariant ChoiceDefaultD(w, c, 0, w.rank(c)) == ChoiceDefaultD(w, c, i, w.rank(c))
    {
      ghost var before := t.Now();
      T.DefaultKnown(t.defs, c, i);
      ReadableNow(t, w, bound);
      T.ChoiceFacts(w, t.Now(), {}, c);
      SoundIsAcyclic(t, w);
      ChoiceConditionSettles(w, c, i);
      var cond := t.ConditionValue(d.defaults[i].cond, w, {}, true, bound, None);
      ReadyAfter(t, before, w, bound);
      MembersAsSeen(t, w, c);
      var named := NamedSymbol(d.defaults[i].value);
      T.NamedLooked(w, t.Now(), c, i);
      T.SizesOf(t.defs, t.Now());
      if cond != NO && named.Some? && t.visible[named.value] != NO { return named; }
      i := i + 1;
    }
    MembersAsSeen(t, w, c);
    r := t.FirstVisibleMember(c, w, true);
  }

  lemma SoundIsAcyclic(t: T.Table, w: World)
    requires Ready(t, w)
    ensures Acyclic(w) && ModulesAgree(w)
  {
  }

  /** What conf_write_defconfig decides about a symbol that is marked for writing. */
  ghost predicate Wanted(w: World, optional: set<nat>, s: nat)
    requires s < |w.defs| == |w.input|
  {
    Calc(w, s).visible > Calc(w, s).rev && ValueText(w, s) != DefaultValueText(w, s) && !SelectedByDefault(w, optional, s)
  }

  lemma ValueIsText(w: World, s: nat)
    requires Acyclic(w) && s < |w.defs| == |w.input|
    ensures var bound := w.rank(s) + w.rank(w.modules) + 1;
      BelowText(w, Var(s, w.defs[s].typ), bound, None) && SymText(w, Var(s, w.defs[s].typ), bound, None) == ValueText(w, s)
  {
    var x, bound := Var(s, w.defs[s].typ), w.rank(s) + w.rank(w.modules) + 1;
    assert Seen(w, s, bound, None) == Calc(w, s).value;
    assert SymTri(w, x, bound, None) == Calc(w, s).value.tri && SymRaw(w, x, bound, None) == Calc(w, s).value.str;
    assert IsTri(x) == HasTri(w.defs[s]);
  }

  /** The body of the loop for a symbol with SYMBOL_WRITE. */
  method SymbolLine(t: T.Table, s: nat, optional: set<nat>, ghost w: World) returns (line: Option<string>)
    requires Ready(t, w) && s in t.valid && s < |t.defs| && !t.defs[s].isChoice && t.defs[s].typ != Unknown
    modifies t
    ensures Ready(t, w) && old(t.valid) <= t.valid && |w.input| == |w.defs|
    ensures line == if Wanted(w, optional, s) then Some(Line(w.defs[s], ValueText(w, s))) else None
  {
    hide T.Sound, T.Grows, T.KnownDefs, T.Right, Calc, Acyclic, ModulesAgree, Line, DefaultValueText, ValueText;
    ReadyFacts(t, w, s);
    SoundIsAcyclic(t, w);
    if t.visible[s] <= t.rev[s] { return None; }
    ValueIsText(w, s);
    ghost var bound := w.rank(s) + w.rank(w.modules) + 1;
    ReadableNow(t, w, bound);
    ghost var t0 := t.Now();
    var text := t.StringValue(Var(s, t.defs[s].typ), w, {}, true, bound, None);
    ReadyAfter(t, t0, w, bound);
    var usual := StringDefault(t, s, w);
    if text == usual { return None; }
    ReadyFacts(t, w, s);
    var d := t.defs[s];
    if d.choiceOf.Some? && d.typ == Boolean && t.curr[s].tri == YES && d.choiceOf.value !in optional {
      YesHasChoice(t, w, s);
      var selected := DefaultSelection(t, d.choiceOf.value, w);
      if selected == Some(s) { return None; }
    }
    return Some(Line(d, text));
  }

  lemma YesHasChoice(t: T.Table, w: World, s: nat)
    requires Ready(t, w) && s in t.valid && s < |w.defs| == |w.input| && w.defs[s].choiceOf.Some? && w.defs[s].typ == Boolean
    requires Calc(w, s).value.tri == YES
    ensures var c := w.defs[s].choiceOf.value;
      c < |w.defs| && c in t.valid && w.defs[c].isChoice && w.defs[c].typ != Unknown && Calc(w, c).value.tri == YES
  {
    Family(w, s);
    MemberValue(w, s);
    CalcIsTyped(w, s);
    SelectionMeansYes(w, w.defs[s].choiceOf.value);
  }

  /** A choice value that would be saved is marked for writing. */
  lemma SavedMemberIsMarked(t: T.Table, w: World, optional: set<nat>, s: nat)
    requires Ready(t, w) && s in t.valid && s < |w.defs| == |w.input| && w.defs[s].choiceOf.Some? && w.defs[s].typ != Unknown
    requires WellFormed(w) && PicksAreYes(w, optional) && Saves(w, optional, s)
    ensures s in t.written
  {
    Family(w, s);
    MemberValue(w, s);
    CalcIsTyped(w, s);
    var c := w.defs[s].choiceOf.value;
    SelectionMeansYes(w, c);
    assert T.Settled(w, t.Now(), s);
    assert T.MembersReady(w, t.Now(), c);
    assert T.MemberReady(w, t.Now(), s, c);
  }

  lemma MarkedIsSaved(t: T.Table, w: World, optional: set<nat>, s: nat)
    requires Ready(t, w) && s in t.valid && s < |w.defs| == |w.input| && !w.defs[s].isChoice && w.defs[s].typ != Unknown
    requires WellFormed(w) && PicksAreYes(w, optional)
    ensures s in t.written && Wanted(w, optional, s) ==> Saves(w, optional, s)
    ensures Saves(w, optional, s) ==> s in t.written && Wanted(w, optional, s)
  {
    hide T.Sound, PicksAreYes;
    ReadyFacts(t, w, s);
    if w.defs[s].choiceOf.Some? && Saves(w, optional, s) { SavedMemberIsMarked(t, w, optional, s); }
  }

  lemma UnsavedKinds(w: World, optional: set<nat>, s: nat)
    requires s < |w.defs| == |w.input|
    ensures w.defs[s].isChoice || (w.defs[s].typ == Unknown) ==> !Saves(w, optional, s)
  {
  }

  /** What conf_write_defconfig does at the menu entry of s. SYMBOL_WRITE is cleared for the symbols
      in done; nothing sets it again for a calculated symbol. */
  method WriteEntry(t: T.Table, s: nat, optional: set<nat>, done: set<nat>, ghost w: World)
    returns (line: Option<string>, done': set<nat>)
    requires Ready(t, w) && s < |t.defs| == |w.input| && WellFormed(w) && PicksAreYes(w, optional)
    modifies t
    ensures Ready(t, w) && old(t.valid) <= t.valid && (!w.defs[s].isChoice ==> s in t.valid)
    ensures done <= done' <= done + {s} && (Saves(w, optional, s) ==> s in done')
    ensures line == if s !in done && Saves(w, optional, s) then Some(Line(w.defs[s], ValueText(w, s))) else None
  {
    hide T.Sound, T.Grows, T.KnownDefs, T.Right, PicksAreYes, Saves, Wanted, Calc, Line, ValueText;
    UnsavedKinds(w, optional, s);
    line, done' := None, done;
    if t.defs[s].isChoice { return; }
    ghost var before := t.Now();
    t.CalcValue(s, w, {}, true);
    ReadyAfter(t, before, w, w.rank(s) + 1);
    if t.defs[s].typ == Unknown { return; }
    MarkedIsSaved(t, w, optional, s);
    if s in t.written && s !in done {
      done' := done + {s};
      line := SymbolLine(t, s, optional, w);
    }
  }

  /** The entries of `seen` have been handled: the symbols to be saved are in done. */
  ghost predicate Handled(w: World, optional: set<nat>, seen: seq<nat>, done: set<nat>, valid: set<nat>)
    requires WellFormed(w) && Listed(w.defs, seen)
  {
    && (forall s :: s in done ==> s in seen)
    && (forall j :: 0 <= j < |seen| && Saves(w, optional, seen[j]) ==> seen[j] in done)
    && (forall j :: 0 <= j < |seen| && !w.defs[seen[j]].isChoice ==> seen[j] in valid)
  }

  lemma OneMoreHandled(w: World, optional: set<nat>, seen: seq<nat>, s: nat, done: set<nat>, done': set<nat>,
                       valid: set<nat>, valid': set<nat>)
    requires WellFormed(w) && Listed(w.defs, seen) && s < |w.defs| && Handled(w, optional, seen, done, valid)
    requires done <= done' <= done + {s} && (Saves(w, optional, s) ==> s in done')
    requires valid <= valid' && (!w.defs[s].isChoice ==> s in valid')
    ensures Listed(w.defs, seen + [s]) && Handled(w, optional, seen + [s], done', valid')
    ensures Saves(w, optional, s) ==> (s in done <==> s in seen)
    ensures Lines(w, optional, seen + [s]) == Lines(w, optional, seen)
         + if s !in done && Saves(w, optional, s) then [Line(w.defs[s], ValueText(w, s))] else []
  {
    hide Saves, Line, ValueText;
    assert (seen + [s])[..|seen|] == seen;
  }

  /** conf_write_defconfig for menu entries in this order. */
  method WriteDefconfig(t: T.Table, order: seq<nat>, optional: set<nat>, ghost w: World) returns (lines: seq<string>)
    requires t.Shape() && t.About(w) && w.input == t.input && w.mv == t.modulesVal
    requires Acyclic(w) && ModulesAgree(w) && Listed(w.defs, order) && PicksAreYes(w, optional)
    modifies t
    ensures t.Shape() && WellFormed(w) && lines == Lines(w, optional, order)
    ensures AllRight(t, w, order)
  {
    hide T.Sound, T.Grows, T.KnownDefs, T.Right, ModulesAgree, SymbolBelow, PicksAreYes, Saves, Calc, Line, ValueText, Lines, Handled, T.SameSizes;
    t.ClearAllValid(w, true);
    lines := [];
    var done: set<nat> := {};
    var i := 0;
    NothingHandled(w, optional, t.valid);
    while i < |order|
      invariant 0 <= i <= |order|
      invariant Ready(t, w)
      invariant Handled(w, optional, order[..i], done, t.valid)
      invariant lines == Lines(w, optional, order[..i])
    {
      ghost var valid, before := t.valid, done;
      var line;
      line, done := WriteEntry(t, order[i], optional, done, w);
      OneMoreHandled(w, optional, order[..i], order[i], before, done, valid, t.valid);
      if line.Some? { lines := lines + [line.value]; }
      assert order[..i + 1] == order[..i] + [order[i]];
      i := i + 1;
    }
    assert order[..|order|] == order;
    HandledIsRight(t, w, optional, order, done);
    ghost var last := t.Now();
    SizesWithoutMarks(t.defs, last, last.written - done);
    t.written := t.written - done;
    assert t.Now() == last.(written := last.written - done);
  }

  lemma SizesWithoutMarks(defs: seq<Def>, t: T.State, written: set<nat>)
    requires T.SameSizes(defs, t)
    ensures T.SameSizes(defs, t.(written := written))
  {
  }

  lemma NothingHandled(w: World, optional: set<nat>, valid: set<nat>)
    requires WellFormed(w)
    ensures Handled(w, optional, [], {}, valid) && Lines(w, optional, []) == []
  {
  }

  /** The symbols of the entries have been calculated and have the values of the definition. */
  ghost predicate AllRight(t: T.Table, w: World, order: seq<nat>)
    requires WellFormed(w) && Listed(w.defs, order)
    reads t
  {
    forall j :: 0 <= j < |order| && !w.defs[order[j]].isChoice ==>
      order[j] in t.valid && order[j] < |t.curr| && t.curr[order[j]] == Calc(w, order[j]).value
  }

  lemma HandledIsRight(t: T.Table, w: World, optional: set<nat>, order: seq<nat>, done: set<nat>)
    requires Ready(t, w) && WellFormed(w) && Listed(w.defs, order) && Handled(w, optional, order, done, t.valid)
    ensures AllRight(t, w, order)
  {
    hide T.Sound, Calc, Saves;
    forall j | 0 <= j < |order| && !w.defs[order[j]].isChoice
      ensures order[j] in t.valid && order[j] < |t.curr| && t.curr[order[j]] == Calc(w, order[j]).value
    {
      ReadyFacts(t, w, order[j]);
    }
  }

  // ---------- loading ----------

  /** strdup of a terminated buffer. */
  method Text(buf: array<char>, ghost n: nat) returns (s: string)
    requires n < buf.Length && buf[n] == Escape.NUL && Escape.NoNul(buf[..n])
    ensures s == buf[..n]
  {
    assert forall k :: 0 <= k < n ==> buf[..n][k] == buf[k];
    var i := 0;
    while buf[i] != Escape.NUL
      invariant 0 <= i <= n
      decreases n - i
    {
      i := i + 1;
    }
    s := buf[..i];
  }

  lemma {:induction false} UnescapedNoNul(s: string)
    requires Escape.NoNul(s)
    ensures Escape.Unescaped(s).Some? ==> Escape.NoNul(Escape.Unescaped(s).value)
  {
    if s != [] {
      assert Escape.NoNul(s[1..]);
      UnescapedNoNul(s[1..]);
      if |s| >= 2 {
        assert Escape.NoNul(s[2..]);
        UnescapedNoNul(s[2..]);
      }
    }
  }

  /** conf_set_sym_val; a quoted text is unescaped in place. */
  method SetSymVal(d: Def, u: Input, p: string) returns (r: Option<Input>)
    requires Escape.NoNul(p)
    ensures r == SetVal(d, u, p)
  {
    hide Escape.Unescaped;
    match d.typ
    case Boolean => r := if p == "" then None else SetTri(u, p[0], false);
    case Tristate => r := if p == "" then None else SetTri(u, p[0], true);
    case Unknown => r := Some(u);
    case String =>
      if p == "" || p[0] != Escape.QUOTE { return Some(u); }
      var text := p[1..];
      assert forall k :: 0 <= k < |text| ==> text[k] == p[k + 1];
      var buf := new char[|text| + 1](i requires 0 <= i <= |text| => if i < |text| then text[i] else Escape.NUL);
      assert Escape.Holds(buf, 0, text);
      var ok;
      ghost var n;
      ok, n := Escape.UnescapeInPlace(buf, text);
      if !ok { return None; }
      UnescapedNoNul(text);
      var val := Text(buf, n);
      r := Some(u.(given := true, str := val));
    case _ => r := if StringValid(d.typ, p) then Some(u.(given := true, str := p)) else None;
  }

  /** One line of conf_read_simple, which updates the input of the table. */
  method ReadSimpleLine(t: T.Table, line: string)
    requires |t.input| == |t.defs| && Escape.NoNul(line)
    modifies t`input
    ensures t.input == ReadLine(t.defs, old(t.input), line)
  {
    hide SetVal, MarkChoiceOf;
    var s;
    if line != "" && line[0] == '#' {
      if |line| < 2 || !StartsWith(line[2..], PREFIX) { return; }
      var rest := line[2 + |PREFIX|..];
      var p := IndexOf(rest, ' ');
      if p.None? || !StartsWith(rest[p.value + 1..], NOT_SET) { return; }
      s := FindSym(t.defs, rest[..p.value]);
      if s.None? { return; }
      if HasTri(t.defs[s.value]) {
        t.input := t.input[s.value := t.input[s.value].(given := true, tri := NO)];
      }
    } else if StartsWith(line, PREFIX) {
      var rest := line[|PREFIX|..];
      var p := IndexOf(rest, '=');
      if p.None? { return; }
      s := FindSym(t.defs, rest[..p.value]);
      if s.None? { return; }
      var text := Chopped(rest[p.value + 1..]);
      assert forall k :: 0 <= k < |text| ==> text[k] == line[|PREFIX| + p.value + 1 + k];
      var u := SetSymVal(t.defs[s.value], t.input[s.value], text);
      if u.None? { return; }
      t.input := t.input[s.value := u.value];
    } else {
      return;
    }
    t.input := MarkChoiceOf(t.defs, t.input, s.value);
  }

  /** Every choice has at most a selection that is a symbol of the table. */
  predicate PicksKnown(defs: seq<Def>, input: seq<Input>) {
    |input| == |defs| && forall k :: 0 <= k < |defs| && input[k].pick.Some? ==> input[k].pick.value < |defs|
  }

  lemma ReadKeepsPicks(defs: seq<Def>, input: seq<Input>, line: string)
    requires PicksKnown(defs, input)
    ensures PicksKnown(defs, ReadLine(defs, input, line))
  {
    hide StartsWith, Chopped, MarkChoiceOf, SetVal, FindSym, IndexOf;
    forall s: nat, given: seq<Input> | s < |defs| && PicksKnown(defs, given)
      ensures PicksKnown(defs, MarkChoiceOf(defs, given, s))
    {
      MarkKeepsPicks(defs, given, s);
    }
    forall s: nat, p | s < |defs|
      ensures SetVal(defs[s], input[s], p).Some? ==> SetVal(defs[s], input[s], p).value.pick == input[s].pick
    {
      SetValKeepsPick(defs[s], input[s], p);
    }
  }

  lemma MarkKeepsPicks(defs: seq<Def>, input: seq<Input>, s: nat)
    requires PicksKnown(defs, input) && s < |defs|
    ensures PicksKnown(defs, MarkChoiceOf(defs, input, s))
  {
  }

  lemma SetValKeepsPick(d: Def, u: Input, p: string)
    ensures SetVal(d, u, p).Some? ==> SetVal(d, u, p).value.pick == u.pick
  {
    hide Escape.Unescaped, StringValid;
  }

  lemma LinesReadStep(defs: seq<Def>, lines: seq<string>, i: nat)
    requires i < |lines|
    ensures ReadAll(defs, lines[..i + 1]) == ReadLine(defs, ReadAll(defs, lines[..i]), lines[i])
  {
    assert lines[..i + 1][..i] == lines[..i];
  }

  /** conf_read_simple: the table ends up with the input the lines say and MODULES calculated. */
  method ReadSimple(t: T.Table, lines: seq<string>, ghost v: World)
    requires t.Shape() && t.About(v) && Acyclic(v) && v.mv == t.modulesVal
    requires v.input == ReadAll(t.defs, lines) && forall k :: 0 <= k < |lines| ==> Escape.NoNul(lines[k])
    modifies t
    ensures t.Shape() && t.modules in t.valid && T.ValuesRight(v, t.Now(), {})
    ensures WellFormed(v) && (ModulesAgree(v) ==> Ready(t, v))
  {
    hide ReadLine, Acyclic, ModulesAgree, T.Grows;
    t.valid := {};
    t.input := Blank(t.defs);
    var i := 0;
    while i < |lines|
      modifies t`input
      invariant 0 <= i <= |lines|
      invariant t.input == ReadAll(t.defs, lines[..i]) && PicksKnown(t.defs, t.input)
    {
      LinesReadStep(t.defs, lines, i);
      ReadKeepsPicks(t.defs, t.input, lines[i]);
      ReadSimpleLine(t, lines[i]);
      i := i + 1;
    }
    assert lines[..|lines|] == lines;
    t.FreshSound(v);
    ghost var before := t.Now();
    t.CalcValue(t.modules, v, {}, true);
    if ModulesAgree(v) { ReadyAfter(t, before, v, v.rank(t.modules) + 1); }
  }

  // ---------- saving and loading ----------

  /** Names and user texts are C strings. */
  ghost predicate PlainTexts(w: World)
    requires WellFormed(w)
  {
    forall s :: 0 <= s < |w.defs| ==>
      Escape.NoNul(w.defs[s].name) && (w.input[s].given && HasText(w.defs[s]) ==> Escape.NoNul(w.input[s].str))
  }

  lemma {:induction false} EscapedNoNul(s: string)
    requires Escape.NoNul(s)
    ensures Escape.NoNul(Escape.Escaped(s))
  {
    if s != [] {
      assert Escape.NoNul(s[1..]);
      EscapedNoNul(s[1..]);
    }
  }

  lemma SavedLineNoNul(w: World, optional: set<nat>, s: nat)
    requires WellFormed(w) && s < |w.defs| && Saves(w, optional, s) && PlainTexts(w)
    ensures Escape.NoNul(Line(w.defs[s], ValueText(w, s)))
  {
    hide Escape.Escaped, Calc, DefaultText;
    var d, text := w.defs[s], ValueText(w, s);
    if HasText(d) { TextIsInput(w, s); }
    UnknownIsUnsaved(w, optional, s);
    assert Escape.NoNul(text);
    EscapedNoNul(text);
    assert Escape.NoNul(PREFIX) && Escape.NoNul(NOT_SET) && Escape.NoNul(d.name);
  }

  lemma UnknownIsUnsaved(w: World, optional: set<nat>, s: nat)
    requires WellFormed(w) && s < |w.defs| && Saves(w, optional, s)
    ensures HasTri(w.defs[s]) || HasText(w.defs[s])
    ensures HasText(w.defs[s]) ==> Calc(w, s).value.str != DefaultText(w, w.defs[s], w.rank(s))
  {
  }

  lemma {:induction false} LinesNoNul(w: World, optional: set<nat>, order: seq<nat>)
    requires WellFormed(w) && Listed(w.defs, order) && PlainTexts(w)
    ensures forall k :: 0 <= k < |Lines(w, optional, order)| ==> Escape.NoNul(Lines(w, optional, order)[k])
    decreases |order|
  {
    hide Saves, Line, ValueText, PlainTexts;
    if order != [] {
      var init, s := order[..|order| - 1], order[|order| - 1];
      LinesNoNul(w, optional, init);
      if Saves(w, optional, s) { SavedLineNoNul(w, optional, s); }
    }
  }

  /** The file names the symbols unambiguously, and fits their texts. */
  ghost predicate Writable(w: World, order: seq<nat>)
    requires WellFormed(w)
  {
    Listed(w.defs, order) && PromptsListed(w.defs, order) && Named(w.defs) && SaneInput(w) && PlainTexts(w)
  }

  /** The symbol has been calculated and has the value it has in w. */
  predicate Has(t: T.Table, s: nat, value: Value)
    reads t
  {
    s in t.valid && s < |t.curr| && t.curr[s] == value
  }

  /** MODULES and the symbols of the entries have the values they have in w. */
  ghost predicate SameValues(t: T.Table, w: World, order: seq<nat>)
    requires WellFormed(w) && Listed(w.defs, order)
    reads t
  {
    && Has(t, w.modules, Calc(w, w.modules).value)
    && forall j :: 0 <= j < |order| ==> Has(t, order[j], Calc(w, order[j]).value)
  }

  /** When something is lost a value differs: that of MODULES, or that of a lost symbol, whose prompt
      gives it an entry. */
  lemma LossIsLoaded(w: World, optional: set<nat>, order: seq<nat>, t: T.Table)
    requires ModulesOff(w, optional) && ModulesAgree(w) && Listed(w.defs, order) && PromptsListed(w.defs, order) && SaneInput(w)
    requires !NothingLost(w)
    requires var v := LoadedWorld(w, optional, order);
      && t.modules == w.modules && |t.curr| == |w.defs| && t.curr[t.modules] == Calc(v, w.modules).value
      && (ModulesAgree(v) ==> forall j :: 0 <= j < |order| ==> t.curr[order[j]] == Calc(v, order[j]).value)
    ensures !SameValues(t, w, order)
  {
    var v := LoadedWorld(w, optional, order);
    LoadedIsAcyclic(w, optional, order);
    hide ModulesOff, SaneInput, Reloaded, Acyclic, LoadedWorld;
    if ModulesAgree(v) {
      var k := LossShows(w, optional, v);
      if w.defs[k].prompts == [] { NoPromptInvisible(w, k); }
      assert k in order;
      var j :| 0 <= j < |order| && order[j] == k;
      assert t.curr[order[j]] == Calc(v, order[j]).value;
    }
  }

  /** A minimal configuration loaded into a fresh table gives MODULES and every symbol with an entry,
      choices included, the value it has in the saved one, if and only if nothing is lost. */
  method SaveAndLoad(t: T.Table, order: seq<nat>, optional: set<nat>, ghost w: World)
    returns (loaded: T.Table, ghost v: World)
    requires t.Shape() && t.About(w) && w.input == t.input && w.mv == t.modulesVal
    requires ModulesOff(w, optional) && ModulesAgree(w) && Writable(w, order)
    modifies t
    ensures fresh(loaded) && loaded.defs == t.defs
    ensures AllRight(t, w, order)
    ensures SameValues(loaded, w, order) <==> NothingLost(w)
    ensures NothingLost(w) ==> Ready(loaded, v) && forall s: nat :: s < |w.defs| == |w.input| == |v.input| ==> Calc(v, s) == Calc(w, s)
  {
    hide T.Sound, T.Grows, T.KnownDefs, ModulesAgree, SymbolBelow, SaneInput, PlainTexts, Named, PicksAreYes, Calc, Saves, PromptsListed, NothingLost, Reloaded;
    SavedPicksAreYes(w, optional);
    var lines := WriteDefconfig(t, order, optional, w);
    LinesNoNul(w, optional, order);
    ReadsAll(w, optional, order);
    LoadedIsAcyclic(w, optional, order);
    v := LoadedWorld(w, optional, order);
    loaded := new T.Table(t.defs, t.modules, Blank(t.defs), NO);
    ReadSimple(loaded, lines, v);
    assert loaded.curr[loaded.modules] == Calc(v, w.modules).value;
    loaded.CalcAll(order, v, ModulesAgree(v));
    if ModulesAgree(v) {
      forall j | 0 <= j < |order|
        ensures Has(loaded, order[j], Calc(v, order[j]).value)
      {
        assert order[j] in order;
        ReadyFacts(loaded, v, order[j]);
      }
    }
    if !NothingLost(w) { LossIsLoaded(w, optional, order, loaded); }
  }
}
