/** The equations that the answers of support/scripts/kconfiglib.py solve, stated over the values of
    the symbols that are read, and that nothing else solves them. */
module KconfigLaws {
  import opened Tristates
  import opened Wrappers
  import opened ExprParser
  import opened KconfigValues
  import opened KconfigChanges
  import opened KconfigCache
  import E = Expressions

  /** Answers to all questions one can ask. */
  datatype Answers = Answers(
    value: string -> string, vis: string -> Tri,
    choiceVis: nat -> Tri, mode: nat -> Tri, selection: nat -> Option<string>)

  // ---------- how expressions read ----------

  function TriNow(k: Kconf, a: Answers, n: string): Tri {
    if n in k.syms then TriSeen(k.syms[n], a.value(n)) else NO
  }

  ghost function View(k: Kconf, a: Answers): Valuation {
    Valuation((n: string) => TriNow(k, a, n), (n: string) => if n in k.syms then a.value(n) else "")
  }

  predicate Modules(k: Kconf, a: Answers) {
    "MODULES" in k.syms && a.value("MODULES") == "y"
  }

  /** Without modules m is y. */
  function Raised(k: Kconf, a: Answers, t: Tri): Tri {
    if t == MOD && !Modules(k, a) then YES else t
  }

  ghost function Now(k: Kconf, a: Answers, e: Option<Tree>): Tri {
    if e.None? then YES else Raised(k, a, Value(e.value, View(k, a)))
  }

  // ---------- the equations ----------

  /** t is the strongest of the conditions, or n. */
  ghost predicate IsStrongest(k: Kconf, a: Answers, es: seq<Option<Tree>>, t: Tri) {
    && (forall p :: p in es ==> Now(k, a, p) <= t)
    && (t == NO || exists p :: p in es && Now(k, a, p) == t)
  }

  /** Something is visible as far as its prompts show it, a choice value not more than its choice. */
  ghost predicate VisLaw(k: Kconf, a: Answers, s: string)
    requires s in k.syms
  {
    var d := k.syms[s];
    exists t :: IsStrongest(k, a, d.prompts, t) &&
      a.vis(s) == Capped(if d.choice.Some? then Min(t, Raised(k, a, a.choiceVis(d.choice.value))) else t, d.typ)
  }

  ghost predicate ChoiceVisLaw(k: Kconf, a: Answers, c: nat)
    requires c < |k.choices|
  {
    exists t :: IsStrongest(k, a, k.choices[c].prompts, t) && a.choiceVis(c) == Capped(t, k.choices[c].typ)
  }

  /** The mode of a choice is what the user wants as far as the choice is visible; without a user an
      optional choice is n, any other one at least m. */
  ghost predicate ModeLaw(k: Kconf, u: Users, a: Answers, c: nat)
    requires c < |k.choices|
  {
    var wanted := if c in u.mode then u.mode[c] else if k.choices[c].optional then NO else MOD;
    a.mode(c) == CappedBool(Min(Raised(k, a, wanted), Raised(k, a, a.choiceVis(c))), k.choices[c].typ)
  }

  /** Default number i of the choice is the one to use. */
  ghost predicate FirstPick(k: Kconf, a: Answers, c: nat, i: nat)
    requires c < |k.choices|
  {
    var ps := k.choices[c].picks;
    && i < |ps| && Now(k, a, ps[i].cond) != NO
    && forall j :: 0 <= j < i ==> Now(k, a, ps[j].cond) == NO
  }

  ghost predicate NoPick(k: Kconf, a: Answers, c: nat)
    requires c < |k.choices|
  {
    forall j :: 0 <= j < |k.choices[c].picks| ==> Now(k, a, k.choices[c].picks[j].cond) == NO
  }

  /** m is what the defaults choose, be it visible or not. */
  ghost predicate IsChosen(k: Kconf, a: Answers, c: nat, m: string)
    requires c < |k.choices|
  {
    || (exists i: nat :: FirstPick(k, a, c, i) && m == k.choices[c].picks[i].symbol)
    || (NoPick(k, a, c) && k.choices[c].members != [] && m == k.choices[c].members[0])
  }

  /** Choice value number i is the first one that is visible. */
  ghost predicate FirstVisible(k: Kconf, a: Answers, c: nat, i: nat)
    requires c < |k.choices|
  {
    var ms := k.choices[c].members;
    i < |ms| && a.vis(ms[i]) != NO && forall j :: 0 <= j < i ==> a.vis(ms[j]) == NO
  }

  ghost predicate NoneVisible(k: Kconf, a: Answers, c: nat)
    requires c < |k.choices|
  {
    forall m :: m in k.choices[c].members ==> a.vis(m) == NO
  }

  /** A choice with mode y selects the user's symbol, if that is fully visible; otherwise, unless it
      is optional, what its defaults choose, if that is visible, or the first one that is. */
  ghost predicate SelectionLaw(k: Kconf, u: Users, a: Answers, c: nat)
    requires c < |k.choices|
  {
    var r := a.selection(c);
    if a.mode(c) != YES then r == None
    else if c in u.selected && a.vis(u.selected[c]) == YES then r == Some(u.selected[c])
    else if k.choices[c].optional || k.choices[c].members == [] then r == None
    else exists m :: IsChosen(k, a, c, m) && (if a.vis(m) != NO then r == Some(m) else FirstOrNone(k, a, c, r))
  }

  ghost predicate FirstOrNone(k: Kconf, a: Answers, c: nat, r: Option<string>)
    requires c < |k.choices|
  {
    || (NoneVisible(k, a, c) && r == None)
    || (exists i: nat :: FirstVisible(k, a, c, i) && r == Some(k.choices[c].members[i]))
  }

  /** Default number i is the one to use. */
  ghost predicate FirstDefault(k: Kconf, a: Answers, d: SymDef, i: nat) {
    && i < |d.defaults| && Now(k, a, d.defaults[i].cond) != NO
    && forall j :: 0 <= j < i ==> Now(k, a, d.defaults[j].cond) == NO
  }

  ghost predicate NoDefault(k: Kconf, a: Answers, d: SymDef) {
    forall j :: 0 <= j < |d.defaults| ==> Now(k, a, d.defaults[j].cond) == NO
  }

  predicate FromUser(u: Users, a: Answers, s: string) {
    a.vis(s) != NO && s in u.val
  }

  /** What a symbol in no choice is before something selects it. */
  ghost predicate IsOwn(k: Kconf, u: Users, a: Answers, s: string, t: Tri)
    requires s in k.syms
  {
    var d := k.syms[s];
    if FromUser(u, a, s) then t == Min(Raised(k, a, TriOfName(u.val[s])), Raised(k, a, a.vis(s)))
    else
      || (NoDefault(k, a, d) && t == NO)
      || (exists i: nat :: FirstDefault(k, a, d, i) &&
            t == Min(Now(k, a, Some(d.defaults[i].value)), Now(k, a, d.defaults[i].cond)))
  }

  /** A boolean or tristate in no choice is at least what its reverse dependency is. */
  ghost predicate PlainLaw(k: Kconf, u: Users, a: Answers, s: string)
    requires s in k.syms
  {
    var d := k.syms[s];
    exists t :: IsOwn(k, u, a, s, t) && a.value(s) == Name(CappedBool(Max(t, Now(k, a, Some(d.rev))), d.typ))
  }

  /** A visible choice value is y if it is selected, in a choice with mode m it is what the user says. */
  ghost predicate MemberLaw(k: Kconf, u: Users, a: Answers, s: string)
    requires s in k.syms && k.syms[s].choice.Some?
  {
    var c := k.syms[s].choice.value;
    a.value(s) == Name(
      if a.vis(s) == NO || a.mode(c) == NO then NO
      else if a.mode(c) == YES then OfBool(a.selection(c) == Some(s))
      else if s in u.val && u.val[s] != "n" then CappedBool(MOD, k.syms[s].typ) else NO)
  }

  ghost function TextNow(k: Kconf, a: Answers, e: Tree): string {
    if e.Leaf? then StrOf(e.operand, View(k, a)) else ""
  }

  ghost predicate StringLaw(k: Kconf, u: Users, a: Answers, s: string)
    requires s in k.syms
  {
    var d := k.syms[s];
    if FromUser(u, a, s) then a.value(s) == u.val[s]
    else
      || (NoDefault(k, a, d) && a.value(s) == "")
      || (exists i: nat :: FirstDefault(k, a, d, i) && a.value(s) == TextNow(k, a, d.defaults[i].value))
  }

  /** Range number i is the one that counts. */
  ghost predicate FirstRange(k: Kconf, a: Answers, d: SymDef, i: nat) {
    && i < |d.ranges| && Now(k, a, d.ranges[i].cond) != NO
    && forall j :: 0 <= j < i ==> Now(k, a, d.ranges[j].cond) == NO
  }

  ghost predicate IsRange(k: Kconf, a: Answers, d: SymDef, r: Option<(int, int)>) {
    || (r == None && forall j :: 0 <= j < |d.ranges| ==> Now(k, a, d.ranges[j].cond) == NO)
    || (exists i: nat :: FirstRange(k, a, d, i) &&
          r == Some((Numeric(k, d.typ, StrOf(d.ranges[i].low, View(k, a))), Numeric(k, d.typ, StrOf(d.ranges[i].high, View(k, a))))))
  }

  predicate Inside(n: int, r: Option<(int, int)>) {
    r.Some? ==> r.value.0 <= n <= r.value.1
  }

  /** The usable defaults, and those of them that are numbers */
  ghost predicate Usable(k: Kconf, a: Answers, d: SymDef, i: nat) {
    i < |d.defaults| && Now(k, a, d.defaults[i].cond) != NO
  }

  ghost predicate NumberAt(k: Kconf, a: Answers, d: SymDef, i: nat) {
    Usable(k, a, d, i) && k.number(d.typ, TextNow(k, a, d.defaults[i].value)).Some?
  }

  /** text is n if that is inside the range, and otherwise the nearest end of it. */
  predicate IsClamped(k: Kconf, typ: E.SymType, r: Option<(int, int)>, was: string, n: int, text: string) {
    if Inside(n, r) then text == was else text == k.show(typ, if n < r.value.0 then r.value.0 else r.value.1)
  }

  /** Without a number among the usable defaults, the low end of the range if it is positive, or the
      last usable default although it is none. */
  ghost predicate NoNumberLaw(k: Kconf, a: Answers, d: SymDef, r: Option<(int, int)>, text: string) {
    if r.Some? && r.value.0 > 0 then text == k.show(d.typ, r.value.0)
    else
      || ((forall i: nat :: !Usable(k, a, d, i)) && text == "")
      || (exists i: nat :: Usable(k, a, d, i) && (forall j: nat :: i < j ==> !Usable(k, a, d, j))
            && text == TextNow(k, a, d.defaults[i].value))
  }

  /** text comes from number i, the first usable default that is one. */
  ghost predicate FromNumber(k: Kconf, a: Answers, d: SymDef, r: Option<(int, int)>, i: nat, text: string) {
    NumberAt(k, a, d, i) && (forall j: nat :: j < i ==> !NumberAt(k, a, d, j)) &&
    var was := TextNow(k, a, d.defaults[i].value);
    IsClamped(k, d.typ, r, was, k.number(d.typ, was).value, text)
  }

  ghost predicate NumericDefaultLaw(k: Kconf, a: Answers, d: SymDef, r: Option<(int, int)>, text: string) {
    || ((forall i: nat :: !NumberAt(k, a, d, i)) && NoNumberLaw(k, a, d, r, text))
    || (exists i: nat :: FromNumber(k, a, d, r, i, text))
  }

  /** A number is the user's, if that is one inside the active range, and otherwise the first usable
      default that is one, moved inside the range. */
  ghost predicate NumericLaw(k: Kconf, u: Users, a: Answers, s: string)
    requires s in k.syms
  {
    var d := k.syms[s];
    exists r :: IsRange(k, a, d, r) &&
      if FromUser(u, a, s) && k.number(d.typ, u.val[s]).Some? && Inside(k.number(d.typ, u.val[s]).value, r)
      then a.value(s) == u.val[s]
      else NumericDefaultLaw(k, a, d, r, a.value(s))
  }

  ghost predicate ValueLaw(k: Kconf, u: Users, a: Answers, s: string)
    requires s in k.syms
  {
    var d := k.syms[s];
    if d.fixed.Some? then a.value(s) == d.fixed.value
    else match d.typ
      case Unknown => a.value(s) == s
      case String => StringLaw(k, u, a, s)
      case Int => NumericLaw(k, u, a, s)
      case Hex => NumericLaw(k, u, a, s)
      case _ => if d.choice.Some? then MemberLaw(k, u, a, s) else PlainLaw(k, u, a, s)
  }

  ghost predicate Solves(k: Kconf, u: Users, a: Answers) {
    && (forall s :: s in k.syms ==> VisLaw(k, a, s) && ValueLaw(k, u, a, s))
    && (forall c :: 0 <= c < |k.choices| ==> ChoiceVisLaw(k, a, c) && ModeLaw(k, u, a, c) && SelectionLaw(k, u, a, c))
  }

  // ---------- evaluation without caches solves them, and nothing else does ----------

  /** The answers are right for the symbols of lower rank. */
  ghost predicate RightBelow(k: Kconf, u: Users, a: Answers, bound: nat)
    requires Ordered(k) && UsersFit(k, u)
  {
    forall n :: n in k.syms && k.rank(n) < bound ==> a.value(n) == Val(k, u, n)
  }

  lemma ViewIs(k: Kconf, u: Users, a: Answers, names: set<string>, bound: nat)
    requires Ordered(k) && UsersFit(k, u) && RightBelow(k, u, a, bound) && Known(k, names, bound)
    ensures var v, w := View(k, a), Look(k, u, bound);
      forall n :: n in names ==> v.tri(n) == w.tri(n) && v.str(n) == w.str(n)
  {
    hide Ordered, UsersFit, Val;
  }

  lemma RaisedIs(k: Kconf, u: Users, a: Answers, t: Tri, bound: nat)
    requires Ordered(k) && UsersFit(k, u) && RightBelow(k, u, a, bound) && (bound > 0 || t != MOD)
    ensures Raised(k, a, t) == Up(k, u, t, bound)
  {
    if "MODULES" in k.syms { assert SymOrdered(k, "MODULES"); }
    hide Ordered, UsersFit, Val;
  }

  lemma NowIs(k: Kconf, u: Users, a: Answers, e: Option<Tree>, bound: nat)
    requires Ordered(k) && UsersFit(k, u) && RightBelow(k, u, a, bound) && Known(k, NamesOpt(e), bound) && Askable(e, bound)
    ensures Now(k, a, e) == Eval(k, u, e, bound)
    ensures Raised(k, a, Now(k, a, e)) == Now(k, a, e) && (bound == 0 ==> Now(k, a, e) != MOD)
  {
    hide Ordered, UsersFit, Val, RightBelow, Known;
    if e.Some? {
      ViewIs(k, u, a, NamesOpt(e), bound);
      ValueAgrees(e.value, View(k, a), Look(k, u, bound));
      if Definite(e.value) { DefiniteIsNotM(e.value, View(k, a)); }
      RaisedIs(k, u, a, Value(e.value, View(k, a)), bound);
    }
  }

  lemma {:induction false} StrongestIs(k: Kconf, u: Users, a: Answers, es: seq<Option<Tree>>, n: nat, bound: nat)
    requires Ordered(k) && UsersFit(k, u) && RightBelow(k, u, a, bound) && Known(k, ConditionNames(es), bound)
    requires (bound > 0 || forall p :: p in es ==> p.None?) && n <= |es|
    ensures IsStrongest(k, a, es[..n], Strongest(k, u, es[..n], bound))
    ensures Raised(k, a, Strongest(k, u, es[..n], bound)) == Strongest(k, u, es[..n], bound)
    ensures bound == 0 ==> Strongest(k, u, es[..n], bound) != MOD
    decreases n
  {
    hide Ordered, UsersFit, Val, RightBelow, Eval, Now, IsStrongest, ConditionNames, Raised, Up;
    if n > 0 {
      assert es[..n][..n - 1] == es[..n - 1] && es[n - 1] in es && es[..n] == es[..n - 1] + [es[n - 1]];
      StrongestIs(k, u, a, es, n - 1, bound);
      ConditionAt(es, n - 1);
      NowIs(k, u, a, es[n - 1], bound);
      RaisedIs(k, u, a, Strongest(k, u, es[..n - 1], bound), bound);
      OneMoreCondition(k, a, es[..n - 1], Strongest(k, u, es[..n - 1], bound), es[n - 1]);
    } else {
      NoCondition(k, a);
    }
  }

  lemma NoCondition(k: Kconf, a: Answers)
    ensures IsStrongest(k, a, [], NO) && Raised(k, a, NO) == NO
  {
  }

  lemma OneMoreCondition(k: Kconf, a: Answers, es: seq<Option<Tree>>, t: Tri, p: Option<Tree>)
    requires IsStrongest(k, a, es, t) && Raised(k, a, t) == t && Raised(k, a, Now(k, a, p)) == Now(k, a, p)
    ensures IsStrongest(k, a, es + [p], Max(t, Now(k, a, p)))
    ensures Raised(k, a, Max(t, Now(k, a, p))) == Max(t, Now(k, a, p))
  {
    hide Now;
    var more := es + [p];
    assert p in more && forall q :: q in more <==> q in es || q == p;
  }

  /** There is one strongest. */
  lemma StrongestIsUnique(k: Kconf, a: Answers, es: seq<Option<Tree>>, s: Tri, t: Tri)
    requires IsStrongest(k, a, es, s) && IsStrongest(k, a, es, t)
    ensures s == t
  {
    hide Now;
  }

  lemma ChoiceVisIs(k: Kconf, u: Users, a: Answers, c: nat)
    requires Ordered(k) && UsersFit(k, u) && c < |k.choices| && RightBelow(k, u, a, k.choiceRank(c))
    ensures ChoiceVisLaw(k, a, c) <==> a.choiceVis(c) == ChoiceVis(k, u, c)
  {
    var es, r := k.choices[c].prompts, k.choiceRank(c);
    ChoiceKnown(k, c);
    hide Ordered, UsersFit, RightBelow, IsStrongest, Strongest, ConditionNames, ChoiceReads;
    StrongestIs(k, u, a, es, |es|, r);
    assert es[..|es|] == es;
    forall t | IsStrongest(k, a, es, t)
      ensures t == Strongest(k, u, es, r)
    {
      StrongestIsUnique(k, a, es, t, Strongest(k, u, es, r));
    }
  }

  lemma VisIs(k: Kconf, u: Users, a: Answers, s: string)
    requires Ordered(k) && UsersFit(k, u) && s in k.syms && RightBelow(k, u, a, k.rank(s))
    requires k.syms[s].choice.Some? ==>
      k.syms[s].choice.value < |k.choices| && a.choiceVis(k.syms[s].choice.value) == ChoiceVis(k, u, k.syms[s].choice.value)
    ensures VisLaw(k, a, s) <==> a.vis(s) == SymVis(k, u, s)
    ensures k.rank(s) == 0 ==> SymVis(k, u, s) != MOD
  {
    var d, r := k.syms[s], k.rank(s);
    SymKnown(k, s);
    if d.choice.Some? { MemberKnown(k, s); }
    hide Ordered, UsersFit, RightBelow, IsStrongest, Strongest, ConditionNames, DefaultNames, RangeNames, Names, ChoiceVis;
    StrongestIs(k, u, a, d.prompts, |d.prompts|, r);
    assert d.prompts[..|d.prompts|] == d.prompts;
    var t := Strongest(k, u, d.prompts, r);
    RaisedIs(k, u, a, t, r);
    if d.choice.Some? { RaisedIs(k, u, a, ChoiceVis(k, u, d.choice.value), r); }
    forall t' | IsStrongest(k, a, d.prompts, t')
      ensures t' == t
    {
      StrongestIsUnique(k, a, d.prompts, t', t);
    }
  }

  lemma ModeIs(k: Kconf, u: Users, a: Answers, c: nat)
    requires Ordered(k) && UsersFit(k, u) && c < |k.choices| && RightBelow(k, u, a, k.choiceRank(c))
    requires a.choiceVis(c) == ChoiceVis(k, u, c)
    ensures ModeLaw(k, u, a, c) <==> a.mode(c) == Mode(k, u, c)
  {
    ChoiceKnown(k, c);
    hide Ordered, UsersFit, RightBelow, ChoiceVis, Up, Raised;
    var wanted := if c in u.mode then u.mode[c] else if k.choices[c].optional then NO else MOD;
    RaisedIs(k, u, a, wanted, k.choiceRank(c));
    RaisedIs(k, u, a, ChoiceVis(k, u, c), k.choiceRank(c));
  }

  // ---------- selections ----------

  lemma {:induction false} ChosenIs(k: Kconf, u: Users, a: Answers, c: nat, i: nat)
    requires Ordered(k) && UsersFit(k, u) && c < |k.choices| && RightBelow(k, u, a, k.choiceRank(c))
    requires k.choices[c].members != [] && i <= |k.choices[c].picks|
    requires forall j :: 0 <= j < i ==> Now(k, a, k.choices[c].picks[j].cond) == NO
    ensures IsChosen(k, a, c, Chosen(k, u, c, i))
    decreases |k.choices[c].picks| - i
  {
    var ps := k.choices[c].picks;
    ChoiceKnown(k, c);
    hide Ordered, UsersFit, RightBelow, Now, Eval, ConditionNames;
    if i < |ps| {
      PickAt(ps, i);
      NowIs(k, u, a, ps[i].cond, k.choiceRank(c));
      if Now(k, a, ps[i].cond) != NO {
        assert FirstPick(k, a, c, i);
      } else {
        ChosenIs(k, u, a, c, i + 1);
      }
    } else {
      assert NoPick(k, a, c);
    }
  }

  lemma ChosenIsUnique(k: Kconf, a: Answers, c: nat, m: string, n: string)
    requires c < |k.choices| && IsChosen(k, a, c, m) && IsChosen(k, a, c, n)
    ensures m == n
  {
    hide Now;
    forall i: nat, j: nat | FirstPick(k, a, c, i) && FirstPick(k, a, c, j)
      ensures i == j
    {
      assert Now(k, a, k.choices[c].picks[i].cond) != NO && Now(k, a, k.choices[c].picks[j].cond) != NO;
    }
  }

  /** The visibilities of the values of a choice are right. */
  ghost predicate MembersSeen(k: Kconf, u: Users, a: Answers, c: nat)
    requires Ordered(k) && UsersFit(k, u) && c < |k.choices|
  {
    forall m :: m in k.choices[c].members ==> m in k.syms && a.vis(m) == SymVis(k, u, m)
  }

  lemma {:induction false} FirstSeenIs(k: Kconf, u: Users, a: Answers, c: nat, i: nat)
    requires Ordered(k) && UsersFit(k, u) && c < |k.choices| && MembersSeen(k, u, a, c) && i <= |k.choices[c].members|
    requires forall j :: 0 <= j < i ==> a.vis(k.choices[c].members[j]) == NO
    ensures FirstOrNone(k, a, c, FirstSeen(k, u, c, i))
    decreases |k.choices[c].members| - i
  {
    hide Ordered, UsersFit, SymVis;
    var ms := k.choices[c].members;
    if i < |ms| {
      assert ms[i] in ms;
      if a.vis(ms[i]) != NO {
        assert FirstVisible(k, a, c, i);
      } else {
        FirstSeenIs(k, u, a, c, i + 1);
      }
    }
  }

  lemma FirstIsUnique(k: Kconf, a: Answers, c: nat, r: Option<string>, t: Option<string>)
    requires c < |k.choices| && FirstOrNone(k, a, c, r) && FirstOrNone(k, a, c, t)
    ensures r == t
  {
    var ms := k.choices[c].members;
    forall i: nat, j: nat | FirstVisible(k, a, c, i) && FirstVisible(k, a, c, j)
      ensures i == j
    {
      assert a.vis(ms[i]) != NO && a.vis(ms[j]) != NO;
    }
    assert forall i: nat :: FirstVisible(k, a, c, i) ==> ms[i] in ms;
  }

  lemma SelectionIs(k: Kconf, u: Users, a: Answers, c: nat)
    requires Ordered(k) && UsersFit(k, u) && c < |k.choices| && RightBelow(k, u, a, k.choiceRank(c))
    requires MembersSeen(k, u, a, c) && a.mode(c) == Mode(k, u, c)
    ensures SelectionLaw(k, u, a, c) <==> a.selection(c) == Selection(k, u, c)
  {
    var ms := k.choices[c].members;
    assert ChoiceOrdered(k, c);
    if c in u.selected { assert u.selected[c] in ms; }
    if ms != [] {
      var m := Chosen(k, u, c, 0);
      ChosenIs(k, u, a, c, 0);
      FirstSeenIs(k, u, a, c, 0);
      forall n | IsChosen(k, a, c, n)
        ensures n == m
      {
        ChosenIsUnique(k, a, c, n, m);
      }
      forall r | FirstOrNone(k, a, c, r)
        ensures r == FirstSeen(k, u, c, 0)
      {
        FirstIsUnique(k, a, c, r, FirstSeen(k, u, c, 0));
      }
      assert m in ms && a.vis(m) == SymVis(k, u, m);
    }
    SelectionCases(k, u, c);
    hide Ordered, UsersFit, RightBelow, Mode, SymVis, Chosen, FirstSeen, IsChosen, FirstOrNone, Selection;
  }

  lemma SelectionCases(k: Kconf, u: Users, c: nat)
    requires Ordered(k) && UsersFit(k, u) && c < |k.choices|
    ensures c in u.selected ==> u.selected[c] in k.syms
    ensures Mode(k, u, c) != YES ==> Selection(k, u, c) == None
    ensures Mode(k, u, c) == YES ==>
      if c in u.selected && SymVis(k, u, u.selected[c]) == YES then Selection(k, u, c) == Some(u.selected[c])
      else if k.choices[c].optional || k.choices[c].members == [] then Selection(k, u, c) == None
      else
        var m := Chosen(k, u, c, 0);
        m in k.syms && Selection(k, u, c) == if SymVis(k, u, m) != NO then Some(m) else FirstSeen(k, u, c, 0)
  {
    assert ChoiceOrdered(k, c);
    if c in u.selected { assert u.selected[c] in k.choices[c].members; }
    hide Mode, SymVis, Chosen, FirstSeen;
  }

  // ---------- values ----------

  lemma {:induction false} ActiveIs(k: Kconf, u: Users, a: Answers, d: SymDef, i: nat, bound: nat)
    requires Ordered(k) && UsersFit(k, u) && RightBelow(k, u, a, bound) && Known(k, DefaultNames(d.defaults), bound)
    requires (bound > 0 || forall x :: x in d.defaults ==> x.cond.None?) && i <= |d.defaults|
    requires forall j :: 0 <= j < i ==> Now(k, a, d.defaults[j].cond) == NO
    ensures var r := Active(k, u, d.defaults, i, bound);
      && (r.None? <==> NoDefault(k, a, d))
      && (forall j: nat :: FirstDefault(k, a, d, j) <==> r == Some(j))
    decreases |d.defaults| - i
  {
    var ds := d.defaults;
    hide Ordered, UsersFit, RightBelow, Now, Eval, DefaultNames;
    if i < |ds| {
      DefaultAt(ds, i);
      assert ds[i] in ds;
      NowIs(k, u, a, ds[i].cond, bound);
      if Now(k, a, ds[i].cond) == NO {
        ActiveIs(k, u, a, d, i + 1, bound);
      } else {
        assert FirstDefault(k, a, d, i);
      }
    }
  }

  lemma TextIs(k: Kconf, u: Users, a: Answers, e: Tree, bound: nat)
    requires Ordered(k) && UsersFit(k, u) && RightBelow(k, u, a, bound) && Known(k, Names(e), bound)
    ensures TextNow(k, a, e) == TextOf(k, u, e, bound)
  {
    ViewIs(k, u, a, Names(e), bound);
    hide Ordered, UsersFit, RightBelow, Look, View;
    if e.Leaf? && e.operand.Sym? { assert e.operand.name in Names(e); }
  }

  lemma OwnIs(k: Kconf, u: Users, a: Answers, s: string, t: Tri)
    requires Ordered(k) && UsersFit(k, u) && s in k.syms && RightBelow(k, u, a, k.rank(s)) && a.vis(s) == SymVis(k, u, s)
    requires TriType(k.syms[s].typ) && k.syms[s].fixed.None? && (k.rank(s) == 0 ==> a.vis(s) != MOD)
    ensures IsOwn(k, u, a, s, t) <==> t == OwnTri(k, u, s, a.vis(s))
    ensures Raised(k, a, OwnTri(k, u, s, a.vis(s))) == OwnTri(k, u, s, a.vis(s)) && (k.rank(s) == 0 ==> OwnTri(k, u, s, a.vis(s)) != MOD)
  {
    hide Ordered, UsersFit, RightBelow, SymVis, Now, DefaultTri, NoDefault, FirstDefault, Active, Up, Raised, TriOfName;
    if FromUser(u, a, s) {
      UserTriIs(k, u, a, s);
    } else {
      DefaultTriIs(k, u, a, s);
    }
  }

  lemma UserTriIs(k: Kconf, u: Users, a: Answers, s: string)
    requires Ordered(k) && UsersFit(k, u) && s in k.syms && RightBelow(k, u, a, k.rank(s)) && s in u.val
    requires TriType(k.syms[s].typ) && k.syms[s].fixed.None? && (k.rank(s) == 0 ==> a.vis(s) != MOD)
    ensures var t, r := TriOfName(u.val[s]), k.rank(s);
      var own := Min(Up(k, u, t, r), Up(k, u, a.vis(s), r));
      && own == Min(Raised(k, a, t), Raised(k, a, a.vis(s)))
      && Raised(k, a, own) == own && (r == 0 ==> own != MOD)
  {
    hide Ordered, UsersFit, RightBelow, Up, Raised, TriOfName;
    UserIsNoM(k, u, s);
    RaisedIs(k, u, a, TriOfName(u.val[s]), k.rank(s));
    RaisedIs(k, u, a, a.vis(s), k.rank(s));
    RaisedTwice(k, a, TriOfName(u.val[s]), a.vis(s));
  }

  lemma RaisedTwice(k: Kconf, a: Answers, s: Tri, t: Tri)
    ensures var r := Min(Raised(k, a, s), Raised(k, a, t)); Raised(k, a, r) == r && (s != MOD && t != MOD ==> r != MOD)
  {
  }

  lemma UserIsNoM(k: Kconf, u: Users, s: string)
    requires Ordered(k) && UsersFit(k, u) && s in u.val && s in k.syms && TriType(k.syms[s].typ) && k.syms[s].fixed.None?
    ensures k.rank(s) == 0 ==> TriOfName(u.val[s]) != MOD
  {
    SymKnown(k, s);
    UserFits(k, u, s);
  }

  /** What the default to be used gives */
  lemma DefaultTriIs(k: Kconf, u: Users, a: Answers, s: string)
    requires Ordered(k) && UsersFit(k, u) && s in k.syms && RightBelow(k, u, a, k.rank(s))
    ensures var d, r := k.syms[s], k.rank(s);
      var t, i := DefaultTri(k, u, d.defaults, r), Active(k, u, d.defaults, 0, r);
      && (i.None? <==> NoDefault(k, a, d)) && (i.None? ==> t == NO)
      && (forall j: nat :: FirstDefault(k, a, d, j) <==> i == Some(j))
      && (i.Some? ==> t == Min(Now(k, a, Some(d.defaults[i.value].value)), Now(k, a, d.defaults[i.value].cond)))
      && Raised(k, a, t) == t && (r == 0 ==> t != MOD)
  {
    var d, r := k.syms[s], k.rank(s);
    DefaultsKnown(k, s);
    ActiveIs(k, u, a, d, 0, r);
    hide Ordered, UsersFit, RightBelow, Names, DefaultNames, Eval, Now, NoDefault, FirstDefault, Active, Up, Known, Definite;
    var i := Active(k, u, d.defaults, 0, r);
    if i.Some? {
      OneDefaultKnown(k, s, i.value);
      OneDefaultIs(k, u, a, d.defaults[i.value], r);
    }
  }

  lemma DefaultsKnown(k: Kconf, s: string)
    requires Ordered(k) && s in k.syms
    ensures var d, r := k.syms[s], k.rank(s);
      Known(k, DefaultNames(d.defaults), r) && (r > 0 || forall x :: x in d.defaults ==> x.cond.None?)
  {
    SymKnown(k, s);
  }

  lemma OneDefaultKnown(k: Kconf, s: string, i: nat)
    requires Ordered(k) && s in k.syms && i < |k.syms[s].defaults|
    ensures var x, r := k.syms[s].defaults[i], k.rank(s);
      Known(k, Names(x.value), r) && Known(k, NamesOpt(x.cond), r) && (r == 0 ==> x.cond.None? && Definite(x.value))
  {
    SymKnown(k, s);
    DefaultAt(k.syms[s].defaults, i);
    assert k.syms[s].defaults[i] in k.syms[s].defaults;
  }

  lemma OneDefaultIs(k: Kconf, u: Users, a: Answers, x: Default, r: nat)
    requires Ordered(k) && UsersFit(k, u) && RightBelow(k, u, a, r) && Known(k, Names(x.value), r) && Known(k, NamesOpt(x.cond), r)
    requires r == 0 ==> x.cond.None? && Definite(x.value)
    ensures var t := Min(Eval(k, u, Some(x.value), r), Up(k, u, Eval(k, u, x.cond, r), r));
      t == Min(Now(k, a, Some(x.value)), Now(k, a, x.cond)) && Raised(k, a, t) == t && (r == 0 ==> t != MOD)
  {
    hide Ordered, UsersFit, RightBelow, Names, Eval, Now, Up, Raised;
    NowIs(k, u, a, Some(x.value), r);
    NowIs(k, u, a, x.cond, r);
    RaisedIs(k, u, a, Now(k, a, x.cond), r);
    LeastIsRaised(k, a, Now(k, a, Some(x.value)), Now(k, a, x.cond));
  }

  lemma LeastIsRaised(k: Kconf, a: Answers, s: Tri, t: Tri)
    requires (Raised(k, a, s) == s && Raised(k, a, t) == t) || s == t == NO
    ensures Raised(k, a, Min(s, t)) == Min(s, t)
  {
  }

  lemma PlainIs(k: Kconf, u: Users, a: Answers, s: string)
    requires Ordered(k) && UsersFit(k, u) && s in k.syms && RightBelow(k, u, a, k.rank(s)) && a.vis(s) == SymVis(k, u, s)
    requires TriType(k.syms[s].typ) && k.syms[s].fixed.None? && k.syms[s].choice.None? && (k.rank(s) == 0 ==> a.vis(s) != MOD)
    ensures PlainLaw(k, u, a, s) <==> a.value(s) == Val(k, u, s)
  {
    hide Ordered, UsersFit, RightBelow, IsOwn, OwnTri, Now, SymVis, Val, PlainTri;
    var own := OwnTri(k, u, s, a.vis(s));
    forall t
      ensures IsOwn(k, u, a, s, t) <==> t == own
    {
      OwnIs(k, u, a, s, t);
    }
    PlainTriIs(k, u, a, s, own);
    ValCases(k, u, s);
  }

  lemma PlainTriIs(k: Kconf, u: Users, a: Answers, s: string, own: Tri)
    requires Ordered(k) && UsersFit(k, u) && s in k.syms && RightBelow(k, u, a, k.rank(s)) && a.vis(s) == SymVis(k, u, s)
    requires TriType(k.syms[s].typ) && k.syms[s].fixed.None? && (k.rank(s) == 0 ==> a.vis(s) != MOD)
    requires own == OwnTri(k, u, s, a.vis(s))
    ensures PlainTri(k, u, s, a.vis(s)) == Max(own, Now(k, a, Some(k.syms[s].rev)))
  {
    var d, r := k.syms[s], k.rank(s);
    SymKnown(k, s);
    hide Ordered, UsersFit, RightBelow, IsOwn, OwnTri, Now, Eval, Raised, Up, SymVis, Names, DefaultNames, ConditionNames, RangeNames, Reads;
    NowIs(k, u, a, Some(d.rev), r);
    OwnIs(k, u, a, s, own);
    RaisedIs(k, u, a, own, r);
    RaisedIs(k, u, a, Now(k, a, Some(d.rev)), r);
  }

  lemma ValCases(k: Kconf, u: Users, s: string)
    requires Ordered(k) && UsersFit(k, u) && s in k.syms && k.syms[s].fixed.None?
    ensures var d := k.syms[s];
      && (TriType(d.typ) && d.choice.None? ==> Val(k, u, s) == Name(CappedBool(PlainTri(k, u, s, SymVis(k, u, s)), d.typ)))
      && (TriType(d.typ) && d.choice.Some? && d.choice.value < |k.choices| ==>
            Val(k, u, s) == Name(CappedBool(MemberTri(k, u, s, d.choice.value, SymVis(k, u, s)), d.typ)))
      && (d.typ == E.String ==> Val(k, u, s) == StringText(k, u, s))
      && (d.typ in {E.Int, E.Hex} ==> Val(k, u, s) == NumericText(k, u, s))
  {
    hide Ordered, UsersFit, PlainTri, MemberTri, SymVis, StringText, NumericText;
  }

  lemma MemberIs(k: Kconf, u: Users, a: Answers, s: string)
    requires Ordered(k) && UsersFit(k, u) && s in k.syms && a.vis(s) == SymVis(k, u, s)
    requires TriType(k.syms[s].typ) && k.syms[s].fixed.None? && k.syms[s].choice.Some? && k.syms[s].choice.value < |k.choices|
    requires var c := k.syms[s].choice.value; a.mode(c) == Mode(k, u, c) && a.selection(c) == Selection(k, u, c)
    ensures MemberLaw(k, u, a, s) <==> a.value(s) == Val(k, u, s)
  {
    hide Ordered, UsersFit, Mode, Selection, SymVis, Val, PlainTri, StringText, NumericText;
    ValCases(k, u, s);
    if s in u.val { MemberUser(k, u, s); }
  }

  lemma MemberUser(k: Kconf, u: Users, s: string)
    requires UsersFit(k, u) && s in u.val && s in k.syms && TriType(k.syms[s].typ)
    ensures u.val[s] in {"m", "y"} <==> u.val[s] != "n"
  {
    UserFits(k, u, s);
    var n := "n";
    assert n[0] != "m"[0] && n[0] != "y"[0];
  }

  lemma StringIs(k: Kconf, u: Users, a: Answers, s: string)
    requires Ordered(k) && UsersFit(k, u) && s in k.syms && RightBelow(k, u, a, k.rank(s)) && a.vis(s) == SymVis(k, u, s)
    requires k.syms[s].typ == E.String && k.syms[s].fixed.None?
    ensures StringLaw(k, u, a, s) <==> a.value(s) == Val(k, u, s)
  {
    hide Ordered, UsersFit, RightBelow, Now, SymVis, Val, FirstDefault, NoDefault, Active, TextOf, TextNow;
    var d, r := k.syms[s], k.rank(s);
    DefaultTextIs(k, u, a, s);
    ValCases(k, u, s);
  }

  lemma DefaultTextIs(k: Kconf, u: Users, a: Answers, s: string)
    requires Ordered(k) && UsersFit(k, u) && s in k.syms && RightBelow(k, u, a, k.rank(s))
    ensures var d, r := k.syms[s], k.rank(s);
      var i := Active(k, u, d.defaults, 0, r);
      && (i.None? <==> NoDefault(k, a, d)) && (forall j: nat :: FirstDefault(k, a, d, j) <==> i == Some(j))
      && (i.Some? ==> TextOf(k, u, d.defaults[i.value].value, r) == TextNow(k, a, d.defaults[i.value].value))
  {
    var d, r := k.syms[s], k.rank(s);
    SymKnown(k, s);
    hide Ordered, UsersFit, RightBelow, Now, Names, DefaultNames, ConditionNames, RangeNames, FirstDefault, NoDefault, Active, TextOf, TextNow, Reads;
    ActiveIs(k, u, a, d, 0, r);
    var i := Active(k, u, d.defaults, 0, r);
    if i.Some? {
      DefaultAt(d.defaults, i.value);
      TextIs(k, u, a, d.defaults[i.value].value, r);
    }
  }

  // ---------- numbers ----------

  lemma {:induction false} BoundsAre(k: Kconf, u: Users, a: Answers, d: SymDef, i: nat, bound: nat)
    requires Ordered(k) && UsersFit(k, u) && RightBelow(k, u, a, bound) && Known(k, RangeNames(d.ranges), bound)
    requires (bound > 0 || d.ranges == []) && i <= |d.ranges|
    requires forall j :: 0 <= j < i ==> Now(k, a, d.ranges[j].cond) == NO
    ensures IsRange(k, a, d, Bounds(k, u, d.typ, d.ranges, i, bound))
    decreases |d.ranges| - i
  {
    hide Ordered, UsersFit, RightBelow, Now, Eval, RangeNames, TextOf, View;
    if i < |d.ranges| {
      var r := d.ranges[i];
      RangeAt(d.ranges, i);
      NowIs(k, u, a, r.cond, bound);
      if Now(k, a, r.cond) == NO {
        BoundsAre(k, u, a, d, i + 1, bound);
      } else {
        assert FirstRange(k, a, d, i);
        TextIs(k, u, a, Leaf(r.low), bound);
        TextIs(k, u, a, Leaf(r.high), bound);
      }
    }
  }

  lemma RangeIsUnique(k: Kconf, a: Answers, d: SymDef, r: Option<(int, int)>, t: Option<(int, int)>)
    requires IsRange(k, a, d, r) && IsRange(k, a, d, t)
    ensures r == t
  {
    hide Now, StrOf, Numeric;
    forall i: nat, j: nat | FirstRange(k, a, d, i) && FirstRange(k, a, d, j)
      ensures i == j
    {
      assert Now(k, a, d.ranges[i].cond) != NO && Now(k, a, d.ranges[j].cond) != NO;
    }
  }

  /** text is that of the last usable default before number n. */
  ghost predicate LastText(k: Kconf, a: Answers, d: SymDef, n: nat, text: string) {
    || ((forall i: nat :: i < n ==> !Usable(k, a, d, i)) && text == "")
    || (exists i: nat :: i < n && Usable(k, a, d, i) && (forall j: nat :: i < j < n ==> !Usable(k, a, d, j))
          && text == TextNow(k, a, d.defaults[i].value))
  }

  lemma {:induction false} NumericDefaultIs(k: Kconf, u: Users, a: Answers, d: SymDef, r: Option<(int, int)>, n: nat, text: string, bound: nat)
    requires Ordered(k) && UsersFit(k, u) && RightBelow(k, u, a, bound) && Known(k, DefaultNames(d.defaults), bound)
    requires (bound > 0 || forall x :: x in d.defaults ==> x.cond.None?) && n <= |d.defaults|
    requires (forall i: nat :: i < n ==> !NumberAt(k, a, d, i)) && LastText(k, a, d, n, text)
    ensures NumericDefaultLaw(k, a, d, r, NumericDefault(k, u, d, r, n, text, bound))
    decreases |d.defaults| - n
  {
    hide Ordered, UsersFit, RightBelow, Now, Eval, DefaultNames, TextOf, TextNow;
    if n < |d.defaults| {
      DefaultAt(d.defaults, n);
      assert d.defaults[n] in d.defaults;
      NowIs(k, u, a, d.defaults[n].cond, bound);
      TextIs(k, u, a, d.defaults[n].value, bound);
      var text' := if Now(k, a, d.defaults[n].cond) == NO then text else TextNow(k, a, d.defaults[n].value);
      NextText(k, a, d, n, text);
      if NumberAt(k, a, d, n) {
        assert FromNumber(k, a, d, r, n, NumericDefault(k, u, d, r, n, text, bound));
      } else {
        NumericDefaultIs(k, u, a, d, r, n + 1, text', bound);
      }
    } else {
      NoNumberIs(k, a, d, r, text);
    }
  }

  lemma NextText(k: Kconf, a: Answers, d: SymDef, n: nat, text: string)
    requires n < |d.defaults| && LastText(k, a, d, n, text)
    ensures LastText(k, a, d, n + 1, if Now(k, a, d.defaults[n].cond) == NO then text else TextNow(k, a, d.defaults[n].value))
  {
    hide Now, TextNow;
    if Usable(k, a, d, n) {
    } else if i: nat :| i < n && Usable(k, a, d, i) && (forall j: nat :: i < j < n ==> !Usable(k, a, d, j))
                        && text == TextNow(k, a, d.defaults[i].value) {
      assert forall j: nat :: i < j < n + 1 ==> !Usable(k, a, d, j);
    }
  }

  lemma NoNumberIs(k: Kconf, a: Answers, d: SymDef, r: Option<(int, int)>, text: string)
    requires LastText(k, a, d, |d.defaults|, text) && forall i: nat :: i < |d.defaults| ==> !NumberAt(k, a, d, i)
    ensures NumericDefaultLaw(k, a, d, r, if r.Some? && r.value.0 > 0 then k.show(d.typ, r.value.0) else text)
  {
    hide Now, TextNow;
    assert forall i: nat :: i >= |d.defaults| ==> !Usable(k, a, d, i);
    assert forall i: nat :: NumberAt(k, a, d, i) ==> i < |d.defaults|;
    if i: nat :| i < |d.defaults| && Usable(k, a, d, i) && (forall j: nat :: i < j < |d.defaults| ==> !Usable(k, a, d, j))
                 && text == TextNow(k, a, d.defaults[i].value) {
      assert forall j: nat :: i < j ==> !Usable(k, a, d, j);
    }
  }

  lemma NoNumberIsUnique(k: Kconf, a: Answers, d: SymDef, r: Option<(int, int)>, s: string, t: string)
    requires NoNumberLaw(k, a, d, r, s) && NoNumberLaw(k, a, d, r, t)
    ensures s == t
  {
    hide Usable, TextNow;
    forall i: nat, j: nat | Usable(k, a, d, i) && Usable(k, a, d, j)
      ensures (forall l: nat :: i < l ==> !Usable(k, a, d, l)) && (forall l: nat :: j < l ==> !Usable(k, a, d, l)) ==> i == j
    {
    }
  }

  lemma ClampedIsUnique(k: Kconf, typ: E.SymType, r: Option<(int, int)>, was: string, n: int, s: string, t: string)
    requires IsClamped(k, typ, r, was, n, s) && IsClamped(k, typ, r, was, n, t)
    ensures s == t
  {
  }

  lemma NumericDefaultIsUnique(k: Kconf, a: Answers, d: SymDef, r: Option<(int, int)>, s: string, t: string)
    requires NumericDefaultLaw(k, a, d, r, s) && NumericDefaultLaw(k, a, d, r, t)
    ensures s == t
  {
    if i: nat :| FromNumber(k, a, d, r, i, s) {
      var j: nat :| FromNumber(k, a, d, r, j, t);
      hide Now, TextNow, IsClamped, Usable;
      assert NumberAt(k, a, d, i) && NumberAt(k, a, d, j);
      assert i == j;
      var was := TextNow(k, a, d.defaults[i].value);
      ClampedIsUnique(k, d.typ, r, was, k.number(d.typ, was).value, s, t);
    } else {
      NoNumberIsUnique(k, a, d, r, s, t);
    }
  }

  lemma NumericParts(k: Kconf, u: Users, a: Answers, s: string)
    requires Ordered(k) && UsersFit(k, u) && s in k.syms && RightBelow(k, u, a, k.rank(s))
    ensures var d, b := k.syms[s], k.rank(s);
      var r := Bounds(k, u, d.typ, d.ranges, 0, b);
      && (forall t :: IsRange(k, a, d, t) <==> t == r)
      && (forall t :: NumericDefaultLaw(k, a, d, r, t) <==> t == NumericDefault(k, u, d, r, 0, "", b))
  {
    var d, b := k.syms[s], k.rank(s);
    var r := Bounds(k, u, d.typ, d.ranges, 0, b);
    var text := NumericDefault(k, u, d, r, 0, "", b);
    SymKnown(k, s);
    hide Ordered, UsersFit, RightBelow, Names, DefaultNames, ConditionNames, RangeNames, IsRange, NumericDefaultLaw, NumericDefault, Bounds, Now, Usable, NumberAt, Reads;
    BoundsAre(k, u, a, d, 0, b);
    forall t | IsRange(k, a, d, t)
      ensures t == r
    {
      RangeIsUnique(k, a, d, t, r);
    }
    NumericDefaultIs(k, u, a, d, r, 0, "", b);
    forall t | NumericDefaultLaw(k, a, d, r, t)
      ensures t == text
    {
      NumericDefaultIsUnique(k, a, d, r, t, text);
    }
  }

  lemma NumericIs(k: Kconf, u: Users, a: Answers, s: string)
    requires Ordered(k) && UsersFit(k, u) && s in k.syms && RightBelow(k, u, a, k.rank(s)) && a.vis(s) == SymVis(k, u, s)
    requires k.syms[s].typ in {E.Int, E.Hex} && k.syms[s].fixed.None?
    ensures NumericLaw(k, u, a, s) <==> a.value(s) == Val(k, u, s)
  {
    hide Ordered, UsersFit, RightBelow, SymVis, Val, IsRange, NumericDefaultLaw, NumericDefault, NumericText, Bounds;
    var d := k.syms[s];
    NumericParts(k, u, a, s);
    ValCases(k, u, s);
    NumericTextIs(k, u, s);
    assert IsRange(k, a, d, Bounds(k, u, d.typ, d.ranges, 0, k.rank(s)));
  }

  lemma NumericTextIs(k: Kconf, u: Users, s: string)
    requires Ordered(k) && UsersFit(k, u) && s in k.syms
    ensures var d, b := k.syms[s], k.rank(s);
      var r := Bounds(k, u, d.typ, d.ranges, 0, b);
      NumericText(k, u, s) ==
        if SymVis(k, u, s) != NO && s in u.val && Acceptable(k, d.typ, r, u.val[s]) then u.val[s]
        else NumericDefault(k, u, d, r, 0, "", b)
  {
    hide Ordered, UsersFit, SymVis, Bounds, NumericDefault;
  }

  // ---------- the main results ----------

  /** The answers for a choice and its values are right. */
  ghost predicate ChoiceRight(k: Kconf, u: Users, a: Answers, c: nat)
    requires Ordered(k) && UsersFit(k, u) && c < |k.choices|
  {
    a.choiceVis(c) == ChoiceVis(k, u, c) && a.mode(c) == Mode(k, u, c) && a.selection(c) == Selection(k, u, c)
  }

  ghost predicate SymbolRight(k: Kconf, u: Users, a: Answers, s: string)
    requires Ordered(k) && UsersFit(k, u) && s in k.syms
  {
    a.vis(s) == SymVis(k, u, s) && a.value(s) == Val(k, u, s)
  }

  /** If everything of lower rank is right, a symbol whose choice is right obeys its equations exactly
      if it is right. */
  lemma SymbolIs(k: Kconf, u: Users, a: Answers, s: string)
    requires Ordered(k) && UsersFit(k, u) && s in k.syms && RightBelow(k, u, a, k.rank(s))
    requires k.syms[s].choice.Some? ==> k.syms[s].choice.value < |k.choices| && ChoiceRight(k, u, a, k.syms[s].choice.value)
    ensures VisLaw(k, a, s) && ValueLaw(k, u, a, s) <==> SymbolRight(k, u, a, s)
  {
    hide Ordered, UsersFit, RightBelow, VisLaw, PlainLaw, MemberLaw, StringLaw, NumericLaw, SymVis, Mode, Selection, ChoiceVis;
    VisIs(k, u, a, s);
    var d := k.syms[s];
    if d.fixed.Some? { FixedValue(k, u, s); return; }
    if d.typ == E.Unknown { UnknownValue(k, u, s); return; }
    hide Val;
    if a.vis(s) == SymVis(k, u, s) {
      if d.typ == E.String { StringIs(k, u, a, s); }
      if d.typ in {E.Int, E.Hex} { NumericIs(k, u, a, s); }
      if TriType(d.typ) && d.choice.Some? { MemberIs(k, u, a, s); }
      if TriType(d.typ) && d.choice.None? { PlainIs(k, u, a, s); }
    }
  }

  lemma UnknownValue(k: Kconf, u: Users, s: string)
    requires Ordered(k) && UsersFit(k, u) && s in k.syms && k.syms[s].fixed.None? && k.syms[s].typ == E.Unknown
    ensures Val(k, u, s) == s
  {
  }

  /** So does a choice. */
  lemma ChoiceIs(k: Kconf, u: Users, a: Answers, c: nat)
    requires Ordered(k) && UsersFit(k, u) && c < |k.choices| && RightBelow(k, u, a, k.choiceRank(c))
    requires forall m :: m in k.choices[c].members ==> m in k.syms && VisLaw(k, a, m)
    ensures ChoiceVisLaw(k, a, c) && ModeLaw(k, u, a, c) && SelectionLaw(k, u, a, c) <==> ChoiceRight(k, u, a, c)
    ensures ChoiceVisLaw(k, a, c) ==> MembersSeen(k, u, a, c)
  {
    hide Ordered, UsersFit, RightBelow, VisLaw, ChoiceVisLaw, ModeLaw, SelectionLaw, SymVis, Mode, Selection, ChoiceVis;
    ChoiceVisIs(k, u, a, c);
    if a.choiceVis(c) == ChoiceVis(k, u, c) {
      ModeIs(k, u, a, c);
      forall m | m in k.choices[c].members
        ensures m in k.syms && a.vis(m) == SymVis(k, u, m)
      {
        MemberOf(k, c, m);
        VisIs(k, u, a, m);
      }
      if a.mode(c) == Mode(k, u, c) { SelectionIs(k, u, a, c); }
    }
  }

  /** What evaluation without caches answers */
  ghost function AnswersOf(k: Kconf, u: Users): Answers
    requires Ordered(k) && UsersFit(k, u)
  {
    Answers(
      (s: string) => if s in k.syms then Val(k, u, s) else "",
      (s: string) => SeenVis(k, u, s),
      (c: nat) => if c < |k.choices| then ChoiceVis(k, u, c) else NO,
      (c: nat) => if c < |k.choices| then Mode(k, u, c) else NO,
      (c: nat) => if c < |k.choices| then Selection(k, u, c) else None)
  }

  ghost function SeenVis(k: Kconf, u: Users, s: string): Tri
    requires Ordered(k) && UsersFit(k, u)
  {
    if s in k.syms then SymVis(k, u, s) else NO
  }

  ghost predicate AllRight(k: Kconf, u: Users, a: Answers)
    requires Ordered(k) && UsersFit(k, u)
  {
    && (forall s :: s in k.syms ==> SymbolRight(k, u, a, s))
    && (forall c :: 0 <= c < |k.choices| ==> ChoiceRight(k, u, a, c))
  }

  lemma AnswersAreRight(k: Kconf, u: Users)
    requires Ordered(k) && UsersFit(k, u)
    ensures AllRight(k, u, AnswersOf(k, u))
  {
    hide Ordered, UsersFit, SymVis, Mode, Selection, ChoiceVis, Val;
  }

  lemma RightSymbolObeys(k: Kconf, u: Users, a: Answers, s: string)
    requires Ordered(k) && UsersFit(k, u) && AllRight(k, u, a) && s in k.syms
    ensures VisLaw(k, a, s) && ValueLaw(k, u, a, s)
  {
    if k.syms[s].choice.Some? { MemberKnown(k, s); }
    hide Ordered, UsersFit, VisLaw, ValueLaw, SymVis, Mode, Selection, ChoiceVis, Val, MembersSeen;
    SymbolIs(k, u, a, s);
  }

  lemma RightChoiceObeys(k: Kconf, u: Users, a: Answers, c: nat)
    requires Ordered(k) && UsersFit(k, u) && AllRight(k, u, a) && c < |k.choices|
    ensures ChoiceVisLaw(k, a, c) && ModeLaw(k, u, a, c) && SelectionLaw(k, u, a, c)
  {
    hide Ordered, UsersFit, VisLaw, ValueLaw, ChoiceVisLaw, ModeLaw, SelectionLaw, SymVis, Mode, Selection, ChoiceVis, Val, MembersSeen;
    forall m | m in k.choices[c].members
      ensures m in k.syms && VisLaw(k, a, m)
    {
      MemberOf(k, c, m);
      RightSymbolObeys(k, u, a, m);
    }
    ChoiceIs(k, u, a, c);
  }

  /** Evaluation obeys all equations. */
  lemma EvaluationSolves(k: Kconf, u: Users)
    requires Ordered(k) && UsersFit(k, u)
    ensures Solves(k, u, AnswersOf(k, u))
  {
    AnswersAreRight(k, u);
    hide *;
    RightAnswersSolve(k, u, AnswersOf(k, u));
  }

  lemma RightAnswersSolve(k: Kconf, u: Users, a: Answers)
    requires Ordered(k) && UsersFit(k, u) && AllRight(k, u, a)
    ensures Solves(k, u, a)
  {
    hide Ordered, UsersFit, VisLaw, ValueLaw, ChoiceVisLaw, ModeLaw, SelectionLaw, AllRight;
    forall s | s in k.syms { RightSymbolObeys(k, u, a, s); }
    forall c: nat | c < |k.choices| { RightChoiceObeys(k, u, a, c); }
  }

  /** Nothing else does. */
  lemma {:induction false} SolutionIsEvaluation(k: Kconf, u: Users, a: Answers, bound: nat)
    requires Ordered(k) && UsersFit(k, u) && Solves(k, u, a)
    ensures forall s :: s in k.syms && k.rank(s) < bound ==> SymbolRight(k, u, a, s)
    ensures forall c :: 0 <= c < |k.choices| && k.choiceRank(c) < bound ==> ChoiceRight(k, u, a, c)
  {
    hide Ordered, UsersFit, VisLaw, ValueLaw, ChoiceVisLaw, ModeLaw, SelectionLaw, SymVis, Mode, Selection, ChoiceVis, Val;
    if bound > 0 {
      SolutionIsEvaluation(k, u, a, bound - 1);
      assert RightBelow(k, u, a, bound - 1);
      forall c: nat | c < |k.choices| && k.choiceRank(c) < bound
        ensures ChoiceRight(k, u, a, c)
      {
        if k.choiceRank(c) == bound - 1 { ChoiceFollows(k, u, a, c); }
      }
      forall s | s in k.syms && k.rank(s) < bound
        ensures SymbolRight(k, u, a, s)
      {
        if k.rank(s) == bound - 1 {
          if k.syms[s].choice.Some? { MemberKnown(k, s); }
          SymbolIs(k, u, a, s);
        }
      }
    }
  }

  lemma ChoiceFollows(k: Kconf, u: Users, a: Answers, c: nat)
    requires Ordered(k) && UsersFit(k, u) && Solves(k, u, a) && c < |k.choices| && RightBelow(k, u, a, k.choiceRank(c))
    ensures ChoiceRight(k, u, a, c)
  {
    hide Ordered, UsersFit, RightBelow, VisLaw, ValueLaw, ChoiceVisLaw, ModeLaw, SelectionLaw, SymVis, Mode, Selection, ChoiceVis;
    forall m | m in k.choices[c].members
      ensures m in k.syms
    {
      MemberOf(k, c, m);
    }
    ChoiceIs(k, u, a, c);
  }

  // ---------- consequences ----------

  lemma NameBack(t: Tri)
    ensures TriOfName(Name(t)) == t
  {
    var n, m, y := "n", "m", "y";
    assert n[0] != m[0] && m[0] != y[0] && n[0] != y[0];
  }

  /** A symbol in no choice is never less than what selects it. */
  lemma SelectedIsOn(k: Kconf, u: Users, a: Answers, s: string)
    requires Solves(k, u, a) && s in k.syms && TriType(k.syms[s].typ) && k.syms[s].fixed.None? && k.syms[s].choice.None?
    ensures TriOfName(a.value(s)) >= Now(k, a, Some(k.syms[s].rev))
  {
    assert ValueLaw(k, u, a, s);
    hide Solves, Now, IsOwn;
    var t :| IsOwn(k, u, a, s, t) && a.value(s) == Name(CappedBool(Max(t, Now(k, a, Some(k.syms[s].rev))), k.syms[s].typ));
    NameBack(CappedBool(Max(t, Now(k, a, Some(k.syms[s].rev))), k.syms[s].typ));
  }

  /** In a choice with mode y exactly the selected value is y if it is visible, so at most one is, and
      in one with any other mode a tristate value is at most the mode. */
  lemma ValuesExclude(k: Kconf, u: Users, a: Answers, s: string)
    requires Solves(k, u, a) && s in k.syms && TriType(k.syms[s].typ) && k.syms[s].fixed.None? && k.syms[s].choice.Some?
    ensures var c := k.syms[s].choice.value;
      && (a.mode(c) == YES ==> (a.value(s) == "y" <==> a.vis(s) != NO && a.selection(c) == Some(s)))
      && (a.mode(c) != YES && k.syms[s].typ == E.Tristate ==> TriOfName(a.value(s)) <= a.mode(c))
  {
    assert ValueLaw(k, u, a, s);
    hide Solves;
    NameBack(NO); NameBack(MOD); NameBack(YES);
  }

  lemma OneValueIsOn(k: Kconf, u: Users, a: Answers, s: string, t: string)
    requires Solves(k, u, a) && s in k.syms && TriType(k.syms[s].typ) && k.syms[s].fixed.None? && k.syms[s].choice.Some?
    requires t in k.syms && TriType(k.syms[t].typ) && k.syms[t].fixed.None? && k.syms[t].choice == k.syms[s].choice
    requires a.mode(k.syms[s].choice.value) == YES && a.value(s) == "y" && a.value(t) == "y"
    ensures s == t
  {
    hide Solves;
    ValuesExclude(k, u, a, s);
    ValuesExclude(k, u, a, t);
  }

  // ---------- the two engines evaluate alike ----------

  /** The expression of the C engine for an expression of Kconfiglib. */
  function Translated(e: Tree, sym: Operand -> E.Sym): E.Expr
    requires WellFormed(e)
    decreases e
  {
    match e
    case Leaf(o) => E.Symbol(sym(o))
    case Neg(x) => E.Not(Translated(x, sym))
    case List(op, args) => TranslatedList(op, args, sym)
    case Rel(equal, l, r) =>
      if equal then E.Equal(sym(l), sym(r.value.operand)) else E.Unequal(sym(l), sym(r.value.operand))
  }

  function TranslatedList(op: Op, args: seq<Tree>, sym: Operand -> E.Sym): E.Expr
    requires args != [] && forall x :: x in args ==> WellFormed(x)
    decreases args
  {
    if |args| == 1 then Translated(args[0], sym)
    else E.Bin(if op == And then E.And else E.Or, Translated(args[0], sym), TranslatedList(op, args[1..], sym))
  }

  /** Operands mean the same to both. */
  ghost predicate Alike(v: Valuation, env: E.Env, sym: Operand -> E.Sym) {
    forall o :: TriOf(o, v) == E.TriOf(sym(o), env) && StrOf(o, v) == E.StrOf(sym(o), env)
  }

  /** The C engine and Kconfiglib give an expression the same value. */
  lemma {:induction false} EnginesAgree(e: Tree, v: Valuation, env: E.Env, sym: Operand -> E.Sym)
    requires WellFormed(e) && Alike(v, env, sym)
    ensures Value(e, v) == E.Eval(Translated(e, sym), env)
    decreases e
  {
    match e
    case Leaf(o) => assert TriOf(o, v) == E.TriOf(sym(o), env);
    case Neg(x) => EnginesAgree(x, v, env, sym);
    case List(op, args) => ListsAgree(op, args, v, env, sym);
    case Rel(_, l, r) =>
      assert StrOf(l, v) == E.StrOf(sym(l), env) && StrOf(r.value.operand, v) == E.StrOf(sym(r.value.operand), env);
  }

  lemma {:induction false} ListsAgree(op: Op, args: seq<Tree>, v: Valuation, env: E.Env, sym: Operand -> E.Sym)
    requires args != [] && (forall x :: x in args ==> WellFormed(x)) && Alike(v, env, sym)
    ensures Values(op, args, v) == E.Eval(TranslatedList(op, args, sym), env)
    decreases args
  {
    EnginesAgree(args[0], v, env, sym);
    if |args| == 1 {
      assert Values(op, args[1..], v) == if op == And then YES else NO;
    } else {
      ListsAgree(op, args[1..], v, env, sym);
    }
  }
}
