/** The equations that a calculated table solves, stated over the values of the other symbols and
    without the recursive definition, and that nothing else solves them. */
module CalculationLaws {
  import opened Tristates
  import opened Wrappers
  import opened Expressions
  import opened Calculation
  import opened UserValues

  /** What is known of every symbol. */
  type Table = nat -> Outcome

  ghost function CalcOf(w: World): Table
    requires WellFormed(w)
  {
    (s: nat) => if s < |w.defs| == |w.input| then Calc(w, s) else Outcome(NOTHING, NO, NO, NO, false)
  }

  /** The assignment a table defines. */
  ghost function EnvFrom(w: World, f: Table): Env {
    Env((id: nat) => if id < |w.defs| then f(id).value.tri else NO,
        (id: nat) => if id < |w.defs| then f(id).value.str else "n")
  }

  /** The same while the choice c is taken to be on. */
  ghost function EnvOn(w: World, f: Table, c: nat): Env {
    var env := EnvFrom(w, f);
    env.(tri := (id: nat) => if id == c then YES else env.tri(id))
  }

  // ---------- the equations ----------

  /** The value of a boolean or tristate in no choice: m only if it is tristate and there are modules. */
  function Held(d: Def, mv: Tri, t: Tri): Tri {
    if t == MOD && (d.typ == Boolean || (d.typ == Tristate && mv == NO)) then YES else t
  }

  /** Prompts show a symbol as far as the strongest of their conditions goes. */
  ghost predicate VisibleLaw(w: World, f: Table, s: nat)
    requires s < |w.defs|
  {
    var d, env := w.defs[s], EnvFrom(w, f);
    && (f(s).visible == NO <==> forall p :: p in d.prompts ==> EvalOpt(p, env) == NO)
    && (f(s).visible == MOD <==>
          && d.typ == Tristate && w.mv != NO
          && (exists p :: p in d.prompts && EvalOpt(p, env) == MOD)
          && (forall p :: p in d.prompts ==> EvalOpt(p, env) != YES))
  }

  /** What selects give. */
  function Selected(d: Def, env: Env): Tri {
    if d.revDep.None? then NO else Eval(d.revDep.value, env)
  }

  ghost predicate ConditionsLaw(w: World, f: Table, s: nat)
    requires s < |w.defs|
  {
    var d, env := w.defs[s], EnvFrom(w, f);
    if d.choiceOf.Some? then f(s).dir == NO && f(s).rev == NO
    else f(s).dir == Promote(EvalOpt(d.dirDep, env)) && f(s).rev == Held(d, w.mv, Selected(d, env))
  }

  /** Default number i is the one to use. */
  ghost predicate FirstActive(d: Def, i: nat, env: Env) {
    && i < |d.defaults| && EvalOpt(d.defaults[i].cond, env) != NO
    && forall j :: 0 <= j < i ==> EvalOpt(d.defaults[j].cond, env) == NO
  }

  ghost predicate NoneActive(d: Def, env: Env) {
    forall j :: 0 <= j < |d.defaults| ==> EvalOpt(d.defaults[j].cond, env) == NO
  }

  ghost predicate FromUser(w: World, f: Table, s: nat)
    requires s < |w.defs| == |w.input|
  {
    f(s).visible != NO && w.input[s].given
  }

  /** A symbol that is no choice and in no choice: the user's value as far as it is visible, or the
      default, or what selects give if that is more. */
  ghost predicate PlainLaw(w: World, f: Table, s: nat)
    requires s < |w.defs| == |w.input|
  {
    var d, env := w.defs[s], EnvFrom(w, f);
    && f(s).value.str == "n" && f(s).value.pick == None
    && if FromUser(w, f, s) then f(s).value.tri == Held(d, w.mv, Max(Min(w.input[s].tri, f(s).visible), Selected(d, env)))
       else
         || (NoneActive(d, env) && f(s).value.tri == Held(d, w.mv, Selected(d, env)))
         || (exists i: nat :: FirstActive(d, i, env) &&
              f(s).value.tri ==
                Held(d, w.mv, Max(Min(Eval(d.defaults[i].value, env), EvalOpt(d.defaults[i].cond, env)), Selected(d, env))))
  }

  /** A choice value: if it is fully visible it is on when it is selected, otherwise it is the user's
      value as far as it is visible. */
  ghost predicate MemberLaw(w: World, f: Table, m: nat)
    requires m < |w.defs| == |w.input| && w.defs[m].choiceOf.Some?
  {
    f(m).value == Value(
      if f(m).visible == YES then OfBool(f(w.defs[m].choiceOf.value).value.pick == Some(m))
      else if FromUser(w, f, m) then Min(w.input[m].tri, f(m).visible)
      else NO, "n", None)
  }

  /** A symbol is shown if the choice is on. */
  ghost predicate Shown(w: World, f: Table, c: nat, m: nat) {
    m < |w.defs| && exists p :: p in w.defs[m].prompts && EvalOpt(p, EnvOn(w, f, c)) != NO
  }

  /** Default number i of the choice selects something that is shown. */
  ghost predicate Names(w: World, f: Table, c: nat, i: nat)
    requires c < |w.defs|
  {
    var d := w.defs[c];
    && i < |d.defaults| && EvalOpt(d.defaults[i].cond, EnvOn(w, f, c)) != NO
    && NamedSymbol(d.defaults[i].value).Some? && Shown(w, f, c, NamedSymbol(d.defaults[i].value).value)
  }

  ghost predicate FirstNamed(w: World, f: Table, c: nat, i: nat)
    requires c < |w.defs|
  {
    Names(w, f, c, i) && forall j: nat :: j < i ==> !Names(w, f, c, j)
  }

  ghost predicate FirstShown(w: World, f: Table, c: nat, i: nat)
    requires c < |w.defs|
  {
    var members := w.defs[c].members;
    i < |members| && Shown(w, f, c, members[i]) && forall j :: 0 <= j < i ==> !Shown(w, f, c, members[j])
  }

  /** What the first usable default names, otherwise the first choice value that is shown */
  ghost predicate DefaultPickLaw(w: World, f: Table, c: nat, pick: Option<nat>)
    requires c < |w.defs|
  {
    var d := w.defs[c];
    if exists i: nat :: Names(w, f, c, i) then
      exists i: nat :: FirstNamed(w, f, c, i) && pick == NamedSymbol(d.defaults[i].value)
    else if exists i: nat :: i < |d.members| && Shown(w, f, c, d.members[i]) then
      exists i: nat :: FirstShown(w, f, c, i) && pick == Some(d.members[i])
    else pick == None
  }

  /** What a choice that is on selects: what the user picked, if it is shown, otherwise what its
      defaults select. */
  ghost predicate PickLaw(w: World, f: Table, c: nat, pick: Option<nat>)
    requires c < |w.defs| == |w.input|
  {
    var user := w.input[c].pick;
    if user.Some? && Shown(w, f, c, user.value) then pick == user else DefaultPickLaw(w, f, c, pick)
  }

  /** A choice is what the user and selects say, and off if it has nothing to select. */
  ghost predicate ChoiceLaw(w: World, f: Table, c: nat)
    requires c < |w.defs| == |w.input|
  {
    var d, env := w.defs[c], EnvFrom(w, f);
    var t := Held(d, w.mv, Max(if FromUser(w, f, c) then Min(w.input[c].tri, f(c).visible) else NO, Selected(d, env)));
    if t == YES then
      PickLaw(w, f, c, f(c).value.pick) && f(c).value.tri == OfBool(f(c).value.pick.Some?) && f(c).value.str == "n"
    else f(c).value == Value(t, "n", None)
  }

  /** t is the text of the symbol that the default to be used names. */
  ghost predicate DefaultTextIs(w: World, f: Table, d: Def, env: Env, t: string) {
    || (NoneActive(d, env) && t == "")
    || (exists i: nat :: FirstActive(d, i, env) &&
          t == if d.defaults[i].value.Symbol? then TextNow(w, f, d.defaults[i].value.sym) else "")
  }

  /** The text of a symbol that a default names */
  ghost function TextNow(w: World, f: Table, x: Sym): string {
    match x
    case Lit(text) => text
    case Var(id, _) => if id < |w.defs| then f(id).value.str else ""
    case Yes => "y"
    case Mod => "m"
    case No => "n"
  }

  ghost predicate TextLaw(w: World, f: Table, s: nat)
    requires s < |w.defs| == |w.input|
  {
    && f(s).value.tri == NO && f(s).value.pick == None
    && if FromUser(w, f, s) then f(s).value.str == w.input[s].str
       else DefaultTextIs(w, f, w.defs[s], EnvFrom(w, f), f(s).value.str)
  }

  /** What is written, apart from choice values: what can be seen, is selected or has a default. */
  ghost predicate WrittenLaw(w: World, f: Table, s: nat)
    requires s < |w.defs| == |w.input|
  {
    var d, env := w.defs[s], EnvFrom(w, f);
    d.choiceOf.None? ==>
    (f(s).written <==>
      || f(s).visible != NO
      || (HasTri(d) && Selected(d, env) != NO)
      || (!d.isChoice && exists i: nat :: FirstActive(d, i, env) && (HasTri(d) || d.defaults[i].value.Symbol?)))
  }

  /** The outcomes agree. Whether a choice value is written is up to its choice. */
  ghost predicate Same(w: World, s: nat, a: Outcome, b: Outcome)
    requires s < |w.defs|
  {
    a == b || (w.defs[s].choiceOf.Some? && a.(written := b.written) == b)
  }

  ghost predicate Obeys(w: World, f: Table, s: nat)
    requires s < |w.defs| == |w.input|
  {
    var d := w.defs[s];
    if d.typ == Unknown then Same(w, s, f(s), Outcome(Value(NO, d.name, None), NO, NO, NO, false))
    else
      && VisibleLaw(w, f, s) && ConditionsLaw(w, f, s) && WrittenLaw(w, f, s)
      && if HasText(d) then TextLaw(w, f, s)
         else if d.choiceOf.Some? then MemberLaw(w, f, s)
         else if d.isChoice then ChoiceLaw(w, f, s)
         else PlainLaw(w, f, s)
  }

  /** Every symbol obeys its equations. */
  ghost predicate Solves(w: World, f: Table)
    requires WellFormed(w)
  {
    forall s :: 0 <= s < |w.defs| ==> Obeys(w, f, s)
  }

  // ---------- the recursive definition solves them, and nothing else does ----------

  /** f is right for all symbols of lower rank. */
  ghost predicate RightBelow(w: World, f: Table, bound: nat)
    requires WellFormed(w)
  {
    forall id: nat :: id < |w.defs| && w.rank(id) < bound ==> f(id).value == Calc(w, id).value
  }

  lemma SymIs(w: World, f: Table, x: Sym, bound: nat)
    requires WellFormed(w) && RightBelow(w, f, bound) && BelowSym(w, x, bound, None)
    ensures SymTri(w, x, bound, None) == TriOf(x, EnvFrom(w, f))
    ensures SymText(w, x, bound, None) == StrOf(x, EnvFrom(w, f))
    ensures SymRaw(w, x, bound, None) == TextNow(w, f, x)
  {
    if x.Var? { CalcIsTyped(w, x.id); }
  }

  lemma {:induction false} EvalIs(w: World, f: Table, e: Expr, bound: nat)
    requires WellFormed(w) && RightBelow(w, f, bound) && Below(w, e, bound, None)
    ensures Eval(e, EnvFrom(w, f)) == Tris(w, e, bound, None)
  {
    match e
    case Symbol(x) => SymIs(w, f, x, bound);
    case Not(x) => EvalIs(w, f, x, bound);
    case Bin(_, l, r) => EvalIs(w, f, l, bound); EvalIs(w, f, r, bound);
    case Equal(a, b) => SymIs(w, f, a, bound); SymIs(w, f, b, bound);
    case Unequal(a, b) => SymIs(w, f, a, bound); SymIs(w, f, b, bound);
  }

  lemma EvalOptIs(w: World, f: Table, e: Option<Expr>, bound: nat)
    requires WellFormed(w) && RightBelow(w, f, bound) && BelowOpt(w, e, bound, None)
    ensures EvalOpt(e, EnvFrom(w, f)) == TrisOpt(w, e, bound, None)
  {
    if e.Some? { EvalIs(w, f, e.value, bound); }
  }

  lemma SymIsOn(w: World, f: Table, x: Sym, c: nat)
    requires WellFormed(w) && c < |w.defs| && HasTri(w.defs[c]) && RightBelow(w, f, w.rank(c))
    requires BelowSym(w, x, w.rank(c), Some(c))
    ensures SymTri(w, x, w.rank(c), Some(c)) == TriOf(x, EnvOn(w, f, c))
    ensures SymText(w, x, w.rank(c), Some(c)) == StrOf(x, EnvOn(w, f, c))
  {
    if x.Var? { CalcIsTyped(w, x.id); }
  }

  lemma {:induction false} EvalIsOn(w: World, f: Table, e: Expr, c: nat)
    requires WellFormed(w) && c < |w.defs| && HasTri(w.defs[c]) && RightBelow(w, f, w.rank(c))
    requires Below(w, e, w.rank(c), Some(c))
    ensures Eval(e, EnvOn(w, f, c)) == Tris(w, e, w.rank(c), Some(c))
  {
    match e
    case Symbol(x) => SymIsOn(w, f, x, c);
    case Not(x) => EvalIsOn(w, f, x, c);
    case Bin(_, l, r) => EvalIsOn(w, f, l, c); EvalIsOn(w, f, r, c);
    case Equal(a, b) => SymIsOn(w, f, a, c); SymIsOn(w, f, b, c);
    case Unequal(a, b) => SymIsOn(w, f, a, c); SymIsOn(w, f, b, c);
  }

  lemma {:induction false} StrongestIs(w: World, es: seq<Option<Expr>>, bound: nat, on: Option<nat>)
    ensures forall p :: p in es ==> TrisOpt(w, p, bound, on) <= Strongest(w, es, bound, on)
    ensures Strongest(w, es, bound, on) != NO ==> exists p :: p in es && TrisOpt(w, p, bound, on) == Strongest(w, es, bound, on)
  {
    if es != [] {
      StrongestIs(w, es[..|es| - 1], bound, on);
      assert es == es[..|es| - 1] + [es[|es| - 1]];
    }
  }

  /** What the prompts of any symbol read is there when it is calculated. */
  lemma PromptsBelowRank(w: World, s: nat)
    requires Acyclic(w) && s < |w.defs| && w.defs[s].typ != Unknown
    ensures WellFormed(w) && forall p :: p in w.defs[s].prompts ==> BelowOpt(w, p, w.rank(s), None)
  {
    assert SymbolBelow(w, s);
    if w.defs[s].choiceOf.Some? {
      var c := w.defs[s].choiceOf.value;
      forall p | p in w.defs[s].prompts
        ensures BelowOpt(w, p, w.rank(s), None)
      {
        BelowHigher(w, p.value, w.rank(c), Some(c), w.rank(s));
      }
    }
  }

  lemma VisibleIs(w: World, f: Table, s: nat)
    requires Acyclic(w) && s < |w.defs| && w.defs[s].typ != Unknown && RightBelow(w, f, w.rank(s))
    ensures VisibleLaw(w, f, s) <==> f(s).visible == Calc(w, s).visible
  {
    var d, r := w.defs[s], w.rank(s);
    PromptsBelowRank(w, s);
    forall p | p in d.prompts
      ensures EvalOpt(p, EnvFrom(w, f)) == TrisOpt(w, p, r, None)
    {
      EvalOptIs(w, f, p, r);
    }
    StrongestIs(w, d.prompts, r, None);
    assert Calc(w, s).visible == VisibleFrom(Strongest(w, d.prompts, r, None), d, w.mv);
    hide Acyclic, Calc, Strongest, Tris, RightBelow;
  }

  lemma ConditionsAre(w: World, f: Table, s: nat)
    requires Acyclic(w) && s < |w.defs| && w.defs[s].typ != Unknown && RightBelow(w, f, w.rank(s))
    ensures ConditionsLaw(w, f, s) <==> f(s).dir == Calc(w, s).dir && f(s).rev == Calc(w, s).rev
    ensures w.defs[s].choiceOf.None? ==> Calc(w, s).rev == Held(w.defs[s], w.mv, Selected(w.defs[s], EnvFrom(w, f)))
  {
    assert SymbolBelow(w, s);
    var d, r, visible := w.defs[s], w.rank(s), Calc(w, s).visible;
    EvalOptIs(w, f, d.dirDep, r);
    EvalOptIs(w, f, d.revDep, r);
    hide Acyclic, SymbolBelow, RightBelow;
    assert Calc(w, s).dir == DirD(w, d, r) && Calc(w, s).rev == RevD(w, d, visible, r);
  }

  /** What the defaults of a symbol that is no choice read is there when it is calculated. */
  ghost predicate DefaultsThere(w: World, d: Def, bound: nat) {
    forall x :: x in d.defaults ==> BelowOpt(w, x.cond, bound, None) && Below(w, x.value, bound, None)
  }

  lemma {:induction false} ActiveIs(w: World, f: Table, d: Def, i: nat, bound: nat)
    requires WellFormed(w) && RightBelow(w, f, bound) && DefaultsThere(w, d, bound) && i <= |d.defaults|
    requires forall j :: 0 <= j < i ==> EvalOpt(d.defaults[j].cond, EnvFrom(w, f)) == NO
    ensures var k, env := ActiveDefault(w, d, i, bound, None), EnvFrom(w, f);
      && (k.None? <==> NoneActive(d, env))
      && (forall j: nat :: FirstActive(d, j, env) <==> k == Some(j))
    decreases |d.defaults| - i
  {
    hide DefaultsThere, RightBelow, TrisOpt, EvalOpt;
    if i < |d.defaults| {
      DefaultCondIs(w, f, d, i, bound);
      if TrisOpt(w, d.defaults[i].cond, bound, None) == NO {
        ActiveIs(w, f, d, i + 1, bound);
      } else {
        assert FirstActive(d, i, EnvFrom(w, f));
      }
    }
  }

  lemma DefaultCondIs(w: World, f: Table, d: Def, i: nat, bound: nat)
    requires WellFormed(w) && RightBelow(w, f, bound) && DefaultsThere(w, d, bound) && i < |d.defaults|
    ensures EvalOpt(d.defaults[i].cond, EnvFrom(w, f)) == TrisOpt(w, d.defaults[i].cond, bound, None)
  {
    assert d.defaults[i] in d.defaults;
    EvalOptIs(w, f, d.defaults[i].cond, bound);
  }

  lemma DefaultsBelowRank(w: World, s: nat)
    requires Acyclic(w) && s < |w.defs| && w.defs[s].typ != Unknown && !w.defs[s].isChoice
    ensures WellFormed(w) && DefaultsThere(w, w.defs[s], w.rank(s))
  {
    assert SymbolBelow(w, s);
  }

  /** What the default to be used gives. */
  lemma DefaultIs(w: World, f: Table, s: nat)
    requires Acyclic(w) && s < |w.defs| && w.defs[s].typ != Unknown && !w.defs[s].isChoice && RightBelow(w, f, w.rank(s))
    ensures var d, env := w.defs[s], EnvFrom(w, f);
      var k := ActiveDefault(w, d, 0, w.rank(s), None);
      && (k.None? <==> NoneActive(d, env)) && (forall j: nat :: FirstActive(d, j, env) <==> k == Some(j))
      && (k.Some? ==> DefaultTri(w, d, w.rank(s)) == Min(Eval(d.defaults[k.value].value, env), EvalOpt(d.defaults[k.value].cond, env)))
      && (k.Some? && d.defaults[k.value].value.Symbol? ==>
            DefaultText(w, d, w.rank(s)) == TextNow(w, f, d.defaults[k.value].value.sym))
  {
    var d, r := w.defs[s], w.rank(s);
    DefaultsBelowRank(w, s);
    ActiveIs(w, f, d, 0, r);
    var k := ActiveDefault(w, d, 0, r, None);
    if k.Some? {
      var x := d.defaults[k.value];
      assert x in d.defaults;
      EvalIs(w, f, x.value, r);
      EvalOptIs(w, f, x.cond, r);
      if x.value.Symbol? { SymIs(w, f, x.value.sym, r); }
    }
  }

  lemma PlainIs(w: World, f: Table, s: nat)
    requires Acyclic(w) && s < |w.defs| && HasTri(w.defs[s]) && !w.defs[s].isChoice && w.defs[s].choiceOf.None?
    requires RightBelow(w, f, w.rank(s)) && f(s).visible == Calc(w, s).visible
    ensures PlainLaw(w, f, s) <==> f(s).value == Calc(w, s).value
  {
    ConditionsAre(w, f, s);
    DefaultIs(w, f, s);
    hide Acyclic, RightBelow, DefaultTri, ActiveDefault, Selected, FirstActive, NoneActive;
    var d, visible, rev := w.defs[s], Calc(w, s).visible, Calc(w, s).rev;
    var t := TriD(w, s, visible, rev);
    assert Calc(w, s).value == Value(t, "n", None);
    assert t == Held(d, w.mv, Max(OwnTri(w, s, visible), rev));
  }

  lemma TextIs(w: World, f: Table, s: nat)
    requires Acyclic(w) && s < |w.defs| && HasText(w.defs[s]) && !w.defs[s].isChoice
    requires RightBelow(w, f, w.rank(s)) && f(s).visible == Calc(w, s).visible
    ensures TextLaw(w, f, s) <==> f(s).value == Calc(w, s).value
  {
    DefaultTextIsUnique(w, f, s);
    TextValue(w, s);
    hide Acyclic, RightBelow, DefaultTextIs, DefaultText, Calc;
  }

  lemma TextValue(w: World, s: nat)
    requires s < |w.defs| == |w.input| && HasText(w.defs[s])
    ensures Calc(w, s).value == Value(NO,
      if Calc(w, s).visible != NO && w.input[s].given then w.input[s].str else DefaultText(w, w.defs[s], w.rank(s)), None)
  {
    hide DefaultText, Strongest;
  }

  lemma DefaultTextIsUnique(w: World, f: Table, s: nat)
    requires Acyclic(w) && s < |w.defs| && HasText(w.defs[s]) && !w.defs[s].isChoice && RightBelow(w, f, w.rank(s))
    ensures var d := w.defs[s];
      forall t :: DefaultTextIs(w, f, d, EnvFrom(w, f), t) <==> t == DefaultText(w, d, w.rank(s))
  {
    var d := w.defs[s];
    DefaultIs(w, f, s);
    hide Acyclic, RightBelow, ActiveDefault, FirstActive, NoneActive, TextNow, SymRaw;
    var k := ActiveDefault(w, d, 0, w.rank(s), None);
    if k.Some? { assert FirstActive(d, k.value, EnvFrom(w, f)); }
  }

  lemma MemberIs(w: World, f: Table, m: nat)
    requires Acyclic(w) && m < |w.defs| && w.defs[m].typ != Unknown && w.defs[m].choiceOf.Some?
    requires RightBelow(w, f, w.rank(m)) && f(m).visible == Calc(w, m).visible
    ensures MemberLaw(w, f, m) <==> f(m).value == Calc(w, m).value
  {
    Family(w, m);
    MemberValue(w, m);
    hide Acyclic;
    assert f(w.defs[m].choiceOf.value).value == Calc(w, w.defs[m].choiceOf.value).value;
    MemberIsTri(w, m);
  }

  lemma MemberIsTri(w: World, m: nat)
    requires m < |w.defs| == |w.input| && HasTri(w.defs[m]) && !w.defs[m].isChoice
    ensures Calc(w, m).value.str == "n" && Calc(w, m).value.pick == None
  {
  }

  lemma WrittenIs(w: World, f: Table, s: nat)
    requires Acyclic(w) && s < |w.defs| && w.defs[s].typ != Unknown && RightBelow(w, f, w.rank(s))
    requires f(s).visible == Calc(w, s).visible && w.defs[s].choiceOf.None?
    ensures WrittenLaw(w, f, s) <==> f(s).written == Calc(w, s).written
  {
    ConditionsAre(w, f, s);
    if !w.defs[s].isChoice { DefaultIs(w, f, s); }
    if w.defs[s].isChoice { ChoiceHasTri(w, s); }
    hide Acyclic, RightBelow, DefaultTri, DefaultText, ActiveDefault, Selected, FirstActive, NoneActive, TextNow;
    assert Calc(w, s).written == WrittenD(w, s, Calc(w, s).visible, Calc(w, s).rev);
  }

  lemma ChoiceHasTri(w: World, s: nat)
    requires Acyclic(w) && s < |w.defs| && w.defs[s].typ != Unknown && w.defs[s].isChoice
    ensures HasTri(w.defs[s]) && w.defs[s].choiceOf.None?
  {
    assert SymbolBelow(w, s);
  }

  // ---------- choices ----------

  /** A choice value is shown exactly if it is visible while the choice is on. */
  lemma ShownIs(w: World, f: Table, c: nat, m: nat)
    requires Acyclic(w) && c < |w.defs| && w.defs[c].isChoice && w.defs[c].typ != Unknown && m in w.defs[c].members
    requires RightBelow(w, f, w.rank(c))
    ensures Shown(w, f, c, m) <==> MemberVisible(w, m, w.rank(c), c) != NO
  {
    ChoiceHasTri(w, c);
    assert SymbolBelow(w, c);
    assert SymbolBelow(w, m);
    forall p | p in w.defs[m].prompts
      ensures EvalOpt(p, EnvOn(w, f, c)) == TrisOpt(w, p, w.rank(c), Some(c))
    {
      EvalIsOn(w, f, p.value, c);
    }
    StrongestIs(w, w.defs[m].prompts, w.rank(c), Some(c));
  }

  lemma {:induction false} FirstVisibleIs(w: World, f: Table, c: nat, i: nat)
    requires Acyclic(w) && c < |w.defs| && w.defs[c].isChoice && w.defs[c].typ != Unknown && RightBelow(w, f, w.rank(c))
    requires i <= |w.defs[c].members| && forall j :: 0 <= j < i ==> !Shown(w, f, c, w.defs[c].members[j])
    ensures var members := w.defs[c].members;
      var k := FirstVisible(w, members, i, w.rank(c), c);
      && (k.None? ==> forall j :: 0 <= j < |members| ==> !Shown(w, f, c, members[j]))
      && (k.Some? ==> exists j: nat :: FirstShown(w, f, c, j) && k == Some(members[j]))
    decreases |w.defs[c].members| - i
  {
    hide Acyclic, Shown;
    if i < |w.defs[c].members| {
      ShownIs(w, f, c, w.defs[c].members[i]);
      if Shown(w, f, c, w.defs[c].members[i]) {
        assert FirstShown(w, f, c, i);
      } else {
        FirstVisibleIs(w, f, c, i + 1);
      }
    }
  }

  lemma NamesIs(w: World, f: Table, c: nat, i: nat)
    requires Acyclic(w) && c < |w.defs| && w.defs[c].isChoice && w.defs[c].typ != Unknown && RightBelow(w, f, w.rank(c))
    requires i < |w.defs[c].defaults|
    ensures var x := w.defs[c].defaults[i];
      var named := NamedSymbol(x.value);
      && named.Some? && named.value in w.defs[c].members
      && (Names(w, f, c, i) <==> TrisOpt(w, x.cond, w.rank(c), Some(c)) != NO && MemberVisible(w, named.value, w.rank(c), c) != NO)
  {
    assert SymbolBelow(w, c);
    var x := w.defs[c].defaults[i];
    assert x in w.defs[c].defaults;
    if x.cond.Some? { EvalIsOn(w, f, x.cond.value, c); }
    ShownIs(w, f, c, NamedSymbol(x.value).value);
  }

  lemma {:induction false} ChoiceDefaultIs(w: World, f: Table, c: nat, i: nat)
    requires Acyclic(w) && c < |w.defs| && w.defs[c].isChoice && w.defs[c].typ != Unknown && RightBelow(w, f, w.rank(c))
    requires i <= |w.defs[c].defaults| && forall j: nat :: j < i ==> !Names(w, f, c, j)
    ensures var d := w.defs[c];
      var k := ChoiceDefaultD(w, c, i, w.rank(c));
      if exists j: nat :: Names(w, f, c, j) then exists j: nat :: FirstNamed(w, f, c, j) && k == NamedSymbol(d.defaults[j].value)
      else k == FirstVisible(w, d.members, 0, w.rank(c), c)
    decreases |w.defs[c].defaults| - i
  {
    hide Acyclic;
    if i < |w.defs[c].defaults| {
      NamesIs(w, f, c, i);
      hide Names;
      if Names(w, f, c, i) {
        assert FirstNamed(w, f, c, i);
      } else {
        ChoiceDefaultIs(w, f, c, i + 1);
      }
    }
  }

  /** The first of its kind is the only one. */
  lemma FirstIsUnique(w: World, f: Table, c: nat)
    requires c < |w.defs|
    ensures forall i: nat, j: nat :: FirstNamed(w, f, c, i) && FirstNamed(w, f, c, j) ==> i == j
    ensures forall i: nat, j: nat :: FirstShown(w, f, c, i) && FirstShown(w, f, c, j) ==> i == j
  {
    hide Names, Shown;
    forall i: nat, j: nat | FirstNamed(w, f, c, i) && FirstNamed(w, f, c, j)
      ensures i == j
    {
      assert Names(w, f, c, i) && Names(w, f, c, j);
    }
    forall i: nat, j: nat | FirstShown(w, f, c, i) && FirstShown(w, f, c, j)
      ensures i == j
    {
      assert Shown(w, f, c, w.defs[c].members[i]) && Shown(w, f, c, w.defs[c].members[j]);
    }
  }

  lemma DefaultPickIs(w: World, f: Table, c: nat, pick: Option<nat>)
    requires Acyclic(w) && c < |w.defs| && w.defs[c].isChoice && w.defs[c].typ != Unknown && RightBelow(w, f, w.rank(c))
    ensures DefaultPickLaw(w, f, c, pick) <==> pick == ChoiceDefaultD(w, c, 0, w.rank(c))
  {
    hide Acyclic, RightBelow, Names, Shown, FirstVisible, ChoiceDefaultD, MemberVisible;
    ChoiceDefaultIs(w, f, c, 0);
    FirstVisibleIs(w, f, c, 0);
    FirstIsUnique(w, f, c);
  }

  lemma PickIs(w: World, f: Table, c: nat, pick: Option<nat>)
    requires Acyclic(w) && c < |w.defs| && w.defs[c].isChoice && w.defs[c].typ != Unknown && RightBelow(w, f, w.rank(c))
    ensures |w.input| == |w.defs| && (PickLaw(w, f, c, pick) <==> pick == PickD(w, c, w.rank(c)))
  {
    PickIsMember(w, c);
    hide Acyclic, SymbolBelow, RightBelow, Shown, DefaultPickLaw, ChoiceDefaultD, MemberVisible;
    var user := w.input[c].pick;
    if user.Some? { ShownIs(w, f, c, user.value); }
    DefaultPickIs(w, f, c, pick);
  }

  lemma PickIsMember(w: World, c: nat)
    requires Acyclic(w) && c < |w.defs| && w.defs[c].isChoice && w.defs[c].typ != Unknown
    ensures |w.input| == |w.defs| && (w.input[c].pick.Some? ==> w.input[c].pick.value in w.defs[c].members)
  {
    assert SymbolBelow(w, c);
  }

  lemma ChoiceIs(w: World, f: Table, c: nat)
    requires Acyclic(w) && c < |w.defs| && w.defs[c].isChoice && w.defs[c].typ != Unknown
    requires RightBelow(w, f, w.rank(c)) && f(c).visible == Calc(w, c).visible
    ensures |w.input| == |w.defs| && (ChoiceLaw(w, f, c) <==> f(c).value == Calc(w, c).value)
  {
    ChoiceHasTri(w, c);
    ConditionsAre(w, f, c);
    PickIs(w, f, c, f(c).value.pick);
    hide Acyclic, RightBelow, PickLaw, PickD, Selected;
    var visible, rev := Calc(w, c).visible, Calc(w, c).rev;
    ChoiceTri(w, c, visible, rev);
    assert Calc(w, c).value == var t := TriD(w, c, visible, rev);
      if t == YES then
        var pick := PickD(w, c, w.rank(c));
        Value(if pick.None? then NO else YES, "n", pick)
      else Value(t, "n", None);
  }

  // ---------- the main results ----------

  /** If everything of lower rank is right, a symbol obeys its equations exactly if it is right. */
  lemma ObeysIs(w: World, f: Table, s: nat)
    requires Acyclic(w) && s < |w.defs| && RightBelow(w, f, w.rank(s))
    ensures |w.input| == |w.defs| && (Obeys(w, f, s) <==> Same(w, s, f(s), Calc(w, s)))
  {
    var d := w.defs[s];
    if d.typ == Unknown { return; }
    VisibleIs(w, f, s);
    ConditionsAre(w, f, s);
    if f(s).visible == Calc(w, s).visible {
      if d.choiceOf.None? { WrittenIs(w, f, s); }
      if d.isChoice { ChoiceIs(w, f, s); ChoiceHasTri(w, s); }
      if d.choiceOf.Some? { MemberIs(w, f, s); Family(w, s); }
      if HasText(d) && !d.isChoice { TextIs(w, f, s); }
      if HasTri(d) && !d.isChoice && d.choiceOf.None? { PlainIs(w, f, s); }
    }
    hide Acyclic, VisibleLaw, ConditionsLaw, WrittenLaw, TextLaw, MemberLaw, ChoiceLaw, PlainLaw, Calc;
  }

  /** The calculated table obeys the equations of every symbol. */
  lemma CalcSolves(w: World)
    requires Acyclic(w)
    ensures Solves(w, CalcOf(w))
  {
    forall s | 0 <= s < |w.defs|
      ensures Obeys(w, CalcOf(w), s)
    {
      ObeysIs(w, CalcOf(w), s);
    }
  }

  /** No other table does. */
  lemma {:induction false} SolutionIsCalc(w: World, f: Table, s: nat)
    requires Acyclic(w) && Solves(w, f) && s < |w.defs|
    ensures |w.input| == |w.defs| && Same(w, s, f(s), Calc(w, s))
    decreases w.rank(s)
  {
    hide SymbolBelow, Obeys, Calc;
    forall id: nat | id < |w.defs| && w.rank(id) < w.rank(s)
      ensures f(id).value == Calc(w, id).value
    {
      SolutionIsCalc(w, f, id);
    }
    assert Obeys(w, f, s);
    ObeysIs(w, f, s);
  }

  // ---------- what may be set ----------

  /** The symbol with the user's tristate u */
  ghost function Given(w: World, s: nat, u: Tri): World
    requires s < |w.defs| == |w.input|
  {
    w.(input := w.input[s := w.input[s].(given := true, tri := u)])
  }

  /** The user can give the symbol the value u. */
  ghost predicate CanBe(w: World, s: nat, u: Tri)
    requires s < |w.defs| == |w.input|
  {
    Calc(Given(w, s, u), s).value.tri == u
  }

  /** sym_tristate_within_range lets the user set exactly the values that the symbol can be given, if
      there is more than one. A choice value that is fully visible is not set but picked. */
  lemma RangeIsFreedom(w: World, s: nat, t: Tri)
    requires Acyclic(w) && s < |w.defs| && HasTri(w.defs[s]) && !w.defs[s].isChoice
    requires w.defs[s].choiceOf.Some? ==> Calc(w, s).visible != YES
    ensures |w.input| == |w.defs| && (WithinRange(w, s, t) <==> CanBe(w, s, t) && exists u :: u != t && CanBe(w, s, u))
  {
    forall u: Tri
      ensures Calc(w, s).visible != NO ==> (CanBe(w, s, u) <==> u == Settles(w, s, u))
      ensures Calc(w, s).visible == NO ==> (CanBe(w, s, u) <==> u == Calc(Given(w, s, NO), s).value.tri)
    {
      SettingDecides(w, s, u);
      SettingDecides(w, s, NO);
    }
    CalcIsTyped(w, s);
    RevIsHeld(w, s);
    hide Acyclic, CanBe, Calc;
    var o := Calc(w, s);
    assert o.visible != NO ==> (CanBe(w, s, o.visible) <==> o.rev <= o.visible);
    assert o.visible != NO && o.rev <= o.visible ==> CanBe(w, s, o.rev);
  }

  /** The same for a choice, before it looks for something to select. */
  lemma ChoiceRangeIsFreedom(w: World, c: nat, t: Tri)
    requires Acyclic(w) && c < |w.defs| && w.defs[c].isChoice && w.defs[c].typ != Unknown
    ensures |w.input| == |w.defs|
    ensures WithinRange(w, c, t) <==>
      Calc(w, c).visible != NO && Settles(w, c, t) == t && exists u :: u != t && Settles(w, c, u) == u
  {
    ChoiceHasTri(w, c);
    CalcIsTyped(w, c);
    RevIsHeld(w, c);
    hide Acyclic, Calc;
    var o := Calc(w, c);
    assert o.visible != NO ==> (Settles(w, c, o.visible) == o.visible <==> o.rev <= o.visible);
    assert o.visible != NO && o.rev <= o.visible ==> Settles(w, c, o.rev) == o.rev;
  }

  /** What a visible symbol with the user's tristate u is */
  ghost function Settles(w: World, s: nat, u: Tri): Tri
    requires s < |w.defs| == |w.input|
  {
    var o := Calc(w, s);
    Promoted(Max(Min(u, o.visible), o.rev), w.defs[s], o.visible, w.mv)
  }

  lemma RevIsHeld(w: World, s: nat)
    requires s < |w.defs| == |w.input| && HasTri(w.defs[s])
    ensures Calc(w, s).rev == MOD ==> EffectiveType(w.defs[s], Calc(w, s).visible, w.mv) != Boolean
  {
  }

  lemma SettingDecides(w: World, s: nat, u: Tri)
    requires Acyclic(w) && s < |w.defs| && HasTri(w.defs[s]) && !w.defs[s].isChoice
    requires w.defs[s].choiceOf.Some? ==> Calc(w, s).visible != YES
    ensures |w.input| == |w.defs|
    ensures Calc(w, s).visible != NO ==> Calc(Given(w, s, u), s).value.tri == Settles(w, s, u)
    ensures Calc(w, s).visible == NO ==> Calc(Given(w, s, u), s).value.tri == Calc(w, s).value.tri
  {
    var v := Given(w, s, u);
    if Calc(w, s).visible != NO {
      OwnInputDecides(w, v, s);
    } else {
      SeenUnaffected(w, v, w.rank(s));
      ConditionsUnaffected(w, v, s);
      if w.defs[s].choiceOf.Some? {
        Family(w, s);
        assert Seen(w, w.defs[s].choiceOf.value, w.rank(s), None) == Seen(v, w.defs[s].choiceOf.value, w.rank(s), None);
      }
      assert OwnTri(v, s, NO) == OwnTri(w, s, NO);
      assert TriD(v, s, NO, Calc(w, s).rev) == TriD(w, s, NO, Calc(w, s).rev);
    }
  }
}
