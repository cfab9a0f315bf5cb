/** What support/kconfig/symbol.c calculates: the value of every symbol as a function of the
    user's input, by recursion over the dependencies. */
module Calculation {
  import opened Tristates
  import opened Wrappers
  import opened Expressions

  datatype Default = Default(value: Expr, cond: Option<Expr>)

  /** The parts of a struct symbol that no calculation changes. prompts holds the conditions of
      the properties that carry a text; choiceOf is the choice a choice value belongs to. */
  datatype Def = Def(
    name: string, typ: SymType,
    prompts: seq<Option<Expr>>, defaults: seq<Default>,
    dirDep: Option<Expr>, revDep: Option<Expr>,
    isChoice: bool, members: seq<nat>, choiceOf: Option<nat>)

  /** def[S_DEF_USER] and the flag that says it counts. For a choice, pick is the chosen member. */
  datatype Input = Input(given: bool, tri: Tri, str: string, pick: Option<nat>)

  /** curr: for a choice, pick is the selected member. */
  datatype Value = Value(tri: Tri, str: string, pick: Option<nat>)

  const NOTHING: Value := Value(NO, "n", None)
  const EMPTY: Value := Value(NO, "", None)

  /** Everything a calculation reads: the definitions, the input, modules_sym and modules_val, and
      a ranking of the symbols along which dependencies go down. */
  datatype World = World(defs: seq<Def>, input: seq<Input>, modules: nat, mv: Tri, rank: nat -> nat)

  ghost predicate WellFormed(w: World) {
    |w.input| == |w.defs| && w.modules < |w.defs|
  }

  /** All that sym_calc_value leaves behind for one symbol. */
  datatype Outcome = Outcome(value: Value, visible: Tri, dir: Tri, rev: Tri, written: bool)

  // ---------- pieces that the code and its specification share ----------

  /** sym_get_type */
  function EffectiveType(d: Def, visible: Tri, mv: Tri): SymType {
    if d.typ == Tristate && ((d.choiceOf.Some? && visible == YES) || mv == NO) then Boolean else d.typ
  }

  predicate HasTri(d: Def) {
    d.typ in {Boolean, Tristate}
  }

  predicate HasText(d: Def) {
    d.typ in {String, Int, Hex}
  }

  /** An m that the type cannot hold is y. */
  function Promoted(t: Tri, d: Def, visible: Tri, mv: Tri): Tri {
    if t == MOD && EffectiveType(d, visible, mv) == Boolean then YES else t
  }

  /** Visibility from the strongest prompt condition. */
  function VisibleFrom(t: Tri, d: Def, mv: Tri): Tri {
    if t == MOD && (d.typ != Tristate || mv == NO) then YES else t
  }

  /** sym_get_string_value for a symbol with value t. */
  function TriText(t: Tri, mv: Tri): string {
    if t == MOD && mv == NO then "n" else Name(t)
  }

  // ---------- the recursive definition ----------

  /** How a symbol reads in an expression whose reader only sees ranks below bound, apart from a
      choice `on` that is being calculated and has been given y for the time being. */
  ghost function Seen(w: World, id: nat, bound: nat, on: Option<nat>): Value
    decreases bound, 0
  {
    if on == Some(id) then Value(YES, "n", None)
    else if id < |w.defs| && |w.input| == |w.defs| && w.rank(id) < bound then Calc(w, id).value
    else NOTHING
  }

  ghost function SymTri(w: World, s: Sym, bound: nat, on: Option<nat>): Tri
    decreases bound, 1
  {
    match s
    case Yes => YES
    case Mod => MOD
    case No => NO
    case Lit(_) => NO
    case Var(id, _) => Seen(w, id, bound, on).tri
  }

  /** curr.val as a string. */
  ghost function SymRaw(w: World, s: Sym, bound: nat, on: Option<nat>): string
    decreases bound, 1
  {
    match s
    case Lit(text) => text
    case Var(id, _) => Seen(w, id, bound, on).str
    case _ => Name(if s.Yes? then YES else if s.Mod? then MOD else NO)
  }

  ghost function SymText(w: World, s: Sym, bound: nat, on: Option<nat>): string
    decreases bound, 2
  {
    if IsTri(s) then TriText(SymTri(w, s, bound, on), w.mv) else SymRaw(w, s, bound, on)
  }

  ghost function Tris(w: World, e: Expr, bound: nat, on: Option<nat>): Tri
    decreases bound, 3, e
  {
    match e
    case Symbol(s) => SymTri(w, s, bound, on)
    case Not(x) => Negate(Tris(w, x, bound, on))
    case Bin(op, l, r) => Apply(op, Tris(w, l, bound, on), Tris(w, r, bound, on))
    case Equal(a, b) => OfBool(SymText(w, a, bound, on) == SymText(w, b, bound, on))
    case Unequal(a, b) => OfBool(SymText(w, a, bound, on) != SymText(w, b, bound, on))
  }

  ghost function TrisOpt(w: World, e: Option<Expr>, bound: nat, on: Option<nat>): Tri
    decreases bound, 4
  {
    if e.None? then YES else Tris(w, e.value, bound, on)
  }

  /** The strongest of some conditions, starting from n. */
  ghost function Strongest(w: World, es: seq<Option<Expr>>, bound: nat, on: Option<nat>): Tri
    decreases bound, 5, |es|
  {
    if es == [] then NO
    else Max(Strongest(w, es[..|es| - 1], bound, on), TrisOpt(w, es[|es| - 1], bound, on))
  }

  ghost function VisibleD(w: World, d: Def, bound: nat, on: Option<nat>): Tri
    decreases bound, 6, 0
  {
    VisibleFrom(Strongest(w, d.prompts, bound, on), d, w.mv)
  }

  /** The first default from position i on whose condition is not n. */
  ghost function ActiveDefault(w: World, d: Def, i: nat, bound: nat, on: Option<nat>): (r: Option<nat>)
    ensures r.Some? ==> i <= r.value < |d.defaults|
    decreases bound, 5, |d.defaults| - i
  {
    if i >= |d.defaults| then None
    else if TrisOpt(w, d.defaults[i].cond, bound, on) != NO then Some(i)
    else ActiveDefault(w, d, i + 1, bound, on)
  }

  /** The member a condition-free look at the members finds visible first, from position i on. */
  ghost function FirstVisible(w: World, members: seq<nat>, i: nat, bound: nat, c: nat): Option<nat>
    decreases bound, 7, |members| - i
  {
    if i >= |members| then None
    else if MemberVisible(w, members[i], bound, c) != NO then Some(members[i])
    else FirstVisible(w, members, i + 1, bound, c)
  }

  ghost function MemberVisible(w: World, m: nat, bound: nat, c: nat): Tri
    decreases bound, 6, 1
  {
    if m < |w.defs| then VisibleD(w, w.defs[m], bound, Some(c)) else NO
  }

  /** The symbol a default names, if it names one. */
  function NamedSymbol(e: Expr): Option<nat> {
    if e.Symbol? && e.sym.Var? then Some(e.sym.id) else None
  }

  /** sym_choice_default from its default number i on. */
  ghost function ChoiceDefaultD(w: World, c: nat, i: nat, bound: nat): Option<nat>
    requires c < |w.defs|
    decreases bound, 8, |w.defs[c].defaults| - i
  {
    var d := w.defs[c];
    if i >= |d.defaults| then FirstVisible(w, d.members, 0, bound, c)
    else
      var named := NamedSymbol(d.defaults[i].value);
      if TrisOpt(w, d.defaults[i].cond, bound, Some(c)) != NO && named.Some? && MemberVisible(w, named.value, bound, c) != NO
      then named
      else ChoiceDefaultD(w, c, i + 1, bound)
  }

  /** sym_calc_choice: the user's pick if it is visible, otherwise the default. */
  ghost function PickD(w: World, c: nat, bound: nat): Option<nat>
    requires c < |w.defs| == |w.input|
    decreases bound, 9
  {
    var pick := w.input[c].pick;
    if pick.Some? && MemberVisible(w, pick.value, bound, c) != NO then pick else ChoiceDefaultD(w, c, 0, bound)
  }

  ghost function DirD(w: World, d: Def, bound: nat): Tri
    decreases bound, 7
  {
    if d.choiceOf.Some? then NO else Promote(TrisOpt(w, d.dirDep, bound, None))
  }

  ghost function RevD(w: World, d: Def, visible: Tri, bound: nat): Tri
    decreases bound, 7
  {
    if d.choiceOf.Some? || d.revDep.None? then NO
    else Promoted(Tris(w, d.revDep.value, bound, None), d, visible, w.mv)
  }

  ghost function DefaultTri(w: World, d: Def, bound: nat): Tri
    decreases bound, 7
  {
    var i := ActiveDefault(w, d, 0, bound, None);
    if i.None? then NO
    else Min(Tris(w, d.defaults[i.value].value, bound, None), TrisOpt(w, d.defaults[i.value].cond, bound, None))
  }

  ghost function DefaultText(w: World, d: Def, bound: nat): string
    decreases bound, 7
  {
    var i := ActiveDefault(w, d, 0, bound, None);
    if i.Some? && d.defaults[i.value].value.Symbol? then SymRaw(w, d.defaults[i.value].value.sym, bound, None) else ""
  }

  /** The tristate before selects are added. */
  ghost function OwnTri(w: World, s: nat, visible: Tri): Tri
    requires s < |w.defs| == |w.input|
    decreases w.rank(s), 8
  {
    var d, u := w.defs[s], w.input[s];
    if visible != NO && u.given then Min(u.tri, visible)
    else if d.isChoice then NO
    else DefaultTri(w, d, w.rank(s))
  }

  /** The tristate of a boolean or tristate symbol, for a choice before it selects a member. */
  ghost function TriD(w: World, s: nat, visible: Tri, rev: Tri): Tri
    requires s < |w.defs| == |w.input|
    decreases w.rank(s), 9
  {
    var d := w.defs[s];
    var t :=
      if d.choiceOf.Some? && visible == YES then
        OfBool(Seen(w, d.choiceOf.value, w.rank(s), None).pick == Some(s))
      else Max(OwnTri(w, s, visible), rev);
    Promoted(t, d, visible, w.mv)
  }

  ghost function TextD(w: World, s: nat, visible: Tri): string
    requires s < |w.defs| == |w.input|
    decreases w.rank(s), 9
  {
    if visible != NO && w.input[s].given then w.input[s].str else DefaultText(w, w.defs[s], w.rank(s))
  }

  /** SYMBOL_WRITE for a symbol that is no choice value. */
  ghost function WrittenD(w: World, s: nat, visible: Tri, rev: Tri): bool
    requires s < |w.defs| == |w.input|
    decreases w.rank(s), 9
  {
    var d := w.defs[s];
    var active := !(visible != NO && w.input[s].given) && ActiveDefault(w, d, 0, w.rank(s), None).Some?;
    if HasTri(d) then visible != NO || rev != NO || (!d.isChoice && active)
    else (visible != NO || (active && d.defaults[ActiveDefault(w, d, 0, w.rank(s), None).value].value.Symbol?))
  }

  /** sym_calc_value */
  ghost function Calc(w: World, s: nat): Outcome
    requires s < |w.defs| == |w.input|
    decreases w.rank(s), 10
  {
    var d, r := w.defs[s], w.rank(s);
    if d.typ == Unknown then Outcome(Value(NO, d.name, None), NO, NO, NO, false)
    else
      var visible, dir := VisibleD(w, d, r, None), DirD(w, d, r);
      var rev := RevD(w, d, visible, r);
      var written := WrittenD(w, s, visible, rev);
      if HasText(d) then
        Outcome(Value(NO, TextD(w, s, visible), None), visible, dir, rev, written)
      else
        var t := TriD(w, s, visible, rev);
        if d.isChoice && t == YES then
          var pick := PickD(w, s, r);
          Outcome(Value(if pick.None? then NO else YES, "n", pick), visible, dir, rev, written)
        else Outcome(Value(t, "n", None), visible, dir, rev, written)
  }

  // ---------- acyclic tables ----------

  /** The symbol may be read by someone at rank bound. */
  ghost predicate BelowSym(w: World, s: Sym, bound: nat, on: Option<nat>) {
    s.Var? ==> s.id < |w.defs| && w.defs[s.id].typ == s.typ && (on == Some(s.id) || w.rank(s.id) < bound)
  }

  /** Its text depends on modules_sym as well when it can be m. */
  ghost predicate BelowText(w: World, s: Sym, bound: nat, on: Option<nat>) {
    BelowSym(w, s, bound, on) && (TypeOf(s) == Tristate ==> w.rank(w.modules) < bound)
  }

  ghost predicate Below(w: World, e: Expr, bound: nat, on: Option<nat>) {
    match e
    case Symbol(s) => BelowSym(w, s, bound, on)
    case Not(x) => Below(w, x, bound, on)
    case Bin(_, l, r) => Below(w, l, bound, on) && Below(w, r, bound, on)
    case Equal(a, b) => BelowText(w, a, bound, on) && BelowText(w, b, bound, on)
    case Unequal(a, b) => BelowText(w, a, bound, on) && BelowText(w, b, bound, on)
  }

  ghost predicate BelowOpt(w: World, e: Option<Expr>, bound: nat, on: Option<nat>) {
    e.Some? ==> Below(w, e.value, bound, on)
  }

  /** A choice value: it has a prompt, each of its prompts mentions the choice and otherwise only
      what the choice may depend on, and it has no defaults. */
  ghost predicate MemberBelow(w: World, m: nat)
    requires m < |w.defs|
  {
    var d := w.defs[m];
    && d.choiceOf.Some?
    && var c := d.choiceOf.value;
    && c < |w.defs| && w.defs[c].isChoice && HasTri(w.defs[c]) && m in w.defs[c].members && HasTri(d) && !d.isChoice
    && w.rank(c) < w.rank(m)
    && d.prompts != [] && d.defaults == []
    && (forall p :: p in d.prompts ==>
          p.Some? && Contains(p.value, Var(c, w.defs[c].typ)) && Below(w, p.value, w.rank(c), Some(c)))
  }

  ghost predicate ChoiceBelow(w: World, c: nat)
    requires c < |w.defs| == |w.input|
  {
    var d := w.defs[c];
    && HasTri(d) && d.choiceOf.None?
    && (forall m :: m in d.members ==> m < |w.defs| && w.defs[m].choiceOf == Some(c) && w.defs[m].typ != Unknown)
    && (forall x :: x in d.defaults ==> NamedSymbol(x.value).Some? && NamedSymbol(x.value).value in d.members)
    && (w.input[c].pick.Some? ==> w.input[c].pick.value in d.members)
  }

  ghost predicate SymbolBelow(w: World, s: nat)
    requires s < |w.defs| == |w.input|
  {
    var d := w.defs[s];
    d.typ != Unknown ==>
      && (d.choiceOf.None? ==> forall p :: p in d.prompts ==> BelowOpt(w, p, w.rank(s), None))
      && (d.choiceOf.Some? ==> MemberBelow(w, s))
      && (forall x :: x in d.defaults ==>
            BelowOpt(w, x.cond, w.rank(s), if d.isChoice then Some(s) else None)
            && (!d.isChoice ==> Below(w, x.value, w.rank(s), None)))
      && BelowOpt(w, d.dirDep, w.rank(s), None)
      && BelowOpt(w, d.revDep, w.rank(s), None)
      && (d.isChoice ==> ChoiceBelow(w, s))
  }

  /** Dependencies go down in rank; a choice and its members may look at each other. */
  ghost predicate Acyclic(w: World) {
    WellFormed(w) && forall s :: 0 <= s < |w.defs| ==> SymbolBelow(w, s)
  }

  /** modules_val is the value modules_sym has. */
  ghost predicate ModulesAgree(w: World)
    requires WellFormed(w)
  {
    Calc(w, w.modules).value.tri == w.mv
  }

  // ---------- reading at a higher rank, or with the choice known, changes nothing ----------

  lemma SymAgree(w: World, s: Sym, bound: nat, on: Option<nat>, bound': nat)
    requires WellFormed(w) && BelowSym(w, s, bound, on) && bound <= bound'
    requires on.Some? ==> on.value < |w.defs| && w.rank(on.value) < bound' && Calc(w, on.value).value.tri == YES && HasTri(w.defs[on.value])
    ensures SymTri(w, s, bound, on) == SymTri(w, s, bound', None)
    ensures SymText(w, s, bound, on) == SymText(w, s, bound', None)
  {
    if s.Var? && on == Some(s.id) {
      assert IsTri(s);
    }
  }

  lemma {:induction false} TrisAgree(w: World, e: Expr, bound: nat, on: Option<nat>, bound': nat)
    requires WellFormed(w) && Below(w, e, bound, on) && bound <= bound'
    requires on.Some? ==> on.value < |w.defs| && w.rank(on.value) < bound' && Calc(w, on.value).value.tri == YES && HasTri(w.defs[on.value])
    ensures Tris(w, e, bound, on) == Tris(w, e, bound', None)
  {
    match e
    case Not(x) => TrisAgree(w, x, bound, on, bound');
    case Bin(_, l, r) => TrisAgree(w, l, bound, on, bound'); TrisAgree(w, r, bound, on, bound');
    case Symbol(s) => SymAgree(w, s, bound, on, bound');
    case Equal(a, b) => SymAgree(w, a, bound, on, bound'); SymAgree(w, b, bound, on, bound');
    case Unequal(a, b) => SymAgree(w, a, bound, on, bound'); SymAgree(w, b, bound, on, bound');
  }

  lemma {:induction false} BelowHigher(w: World, e: Expr, bound: nat, on: Option<nat>, bound': nat)
    requires Below(w, e, bound, on) && bound <= bound'
    requires on.Some? ==> on.value < |w.defs| && w.rank(on.value) < bound'
    ensures Below(w, e, bound', None)
  {
    match e
    case Not(x) => BelowHigher(w, x, bound, on, bound');
    case Bin(_, l, r) => BelowHigher(w, l, bound, on, bound'); BelowHigher(w, r, bound, on, bound');
    case _ =>
  }

  lemma {:induction false} StrongestAgree(w: World, es: seq<Option<Expr>>, bound: nat, on: Option<nat>, bound': nat)
    requires WellFormed(w) && bound <= bound'
    requires forall p :: p in es ==> BelowOpt(w, p, bound, on)
    requires on.Some? ==> on.value < |w.defs| && w.rank(on.value) < bound' && Calc(w, on.value).value.tri == YES && HasTri(w.defs[on.value])
    ensures Strongest(w, es, bound, on) == Strongest(w, es, bound', None)
  {
    if es != [] {
      StrongestAgree(w, es[..|es| - 1], bound, on, bound');
      var p := es[|es| - 1];
      assert p in es && BelowOpt(w, p, bound, on);
      if p.Some? { TrisAgree(w, p.value, bound, on, bound'); }
    }
  }

  /** While a choice has the value y, its members are as visible as they looked when it selected. */
  lemma MemberVisibilitySettles(w: World, m: nat)
    requires Acyclic(w) && m < |w.defs| && w.defs[m].choiceOf.Some? && w.defs[m].typ != Unknown
    requires w.defs[m].choiceOf.value < |w.defs| && Calc(w, w.defs[m].choiceOf.value).value.tri == YES
    ensures Calc(w, m).visible == MemberVisible(w, m, w.rank(w.defs[m].choiceOf.value), w.defs[m].choiceOf.value)
  {
    assert SymbolBelow(w, m);
    var c := w.defs[m].choiceOf.value;
    assert SymbolBelow(w, c);
    StrongestAgree(w, w.defs[m].prompts, w.rank(c), Some(c), w.rank(m));
  }

  // ---------- typed values ----------

  /** A boolean symbol is never m, and without modules no calculated symbol is. */
  lemma CalcIsTyped(w: World, s: nat)
    requires s < |w.defs| == |w.input|
    ensures w.defs[s].typ == Boolean || w.mv == NO || !HasTri(w.defs[s]) ==> Calc(w, s).value.tri != MOD
    ensures !HasTri(w.defs[s]) ==> Calc(w, s).value.tri == NO
    ensures w.defs[s].typ != Tristate || w.mv == NO ==> Calc(w, s).visible != MOD
  {
  }
}
