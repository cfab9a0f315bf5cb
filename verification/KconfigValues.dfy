/** The values of support/scripts/kconfiglib.py without its caches: what symbols and choices evaluate
    to, which symbols a value is read from, and what a change of user values can reach. */
module KconfigValues {
  import opened Tristates
  import opened Wrappers
  import opened ExprParser
  import E = Expressions

  datatype Range = Range(low: Operand, high: Operand, cond: Option<Tree>)
  datatype Default = Default(value: Tree, cond: Option<Tree>)
  datatype Pick = Pick(symbol: string, cond: Option<Tree>)

  /** The parts of a Symbol that no calculation changes; fixed is the value of a special symbol. */
  datatype SymDef = SymDef(
    typ: E.SymType, isDefined: bool, prompts: seq<Option<Tree>>, defaults: seq<Default>,
    rev: Tree, ranges: seq<Range>, choice: Option<nat>, fixed: Option<string>)

  datatype ChoiceDef = ChoiceDef(
    typ: E.SymType, prompts: seq<Option<Tree>>, picks: seq<Pick>, members: seq<string>, optional: bool)

  /** A configuration: its symbols by name, its choices, int(s, base) and its inverse for numeric
      types, and a ranking of symbols and choices along which dependencies go down. */
  datatype Kconf = Kconf(
    syms: map<string, SymDef>, choices: seq<ChoiceDef>,
    number: (E.SymType, string) -> Option<int>, show: (E.SymType, int) -> string,
    rank: string -> nat, choiceRank: nat -> nat, top: nat)

  /** user_val of symbols and choices and user_mode of choices, where they are set. */
  datatype Users = Users(val: map<string, string>, selected: map<nat, string>, mode: map<nat, Tri>)

  predicate TriType(t: E.SymType) {
    t in {E.Boolean, E.Tristate}
  }

  function TriOfName(s: string): Tri {
    if s == "y" then YES else if s == "m" then MOD else NO
  }

  function Capped(t: Tri, typ: E.SymType): Tri {
    if t == MOD && typ != E.Tristate then YES else t
  }

  function CappedBool(t: Tri, typ: E.SymType): Tri {
    if t == MOD && typ == E.Boolean then YES else t
  }

  // ---------- what is read ----------

  function OperandNames(o: Operand): set<string> {
    if o.Sym? then {o.name} else {}
  }

  /** _get_expr_syms */
  function Names(e: Tree): set<string>
    decreases e
  {
    match e
    case Leaf(o) => OperandNames(o)
    case Neg(x) => Names(x)
    case List(_, args) => AllNames(args)
    case Rel(_, a, b) => OperandNames(a) + if b.Some? && b.value.Item? then OperandNames(b.value.operand) else {}
  }

  function AllNames(args: seq<Tree>): set<string>
    decreases args
  {
    if args == [] then {} else Names(args[0]) + AllNames(args[1..])
  }

  function NamesOpt(e: Option<Tree>): set<string> {
    if e.None? then {} else Names(e.value)
  }

  function ConditionNames(es: seq<Option<Tree>>): set<string> {
    if es == [] then {} else NamesOpt(es[0]) + ConditionNames(es[1..])
  }

  function DefaultNames(ds: seq<Default>): set<string> {
    if ds == [] then {} else Names(ds[0].value) + NamesOpt(ds[0].cond) + DefaultNames(ds[1..])
  }

  function RangeNames(rs: seq<Range>): set<string> {
    if rs == [] then {}
    else OperandNames(rs[0].low) + OperandNames(rs[0].high) + NamesOpt(rs[0].cond) + RangeNames(rs[1..])
  }

  function PickNames(ps: seq<Pick>): set<string> {
    if ps == [] then {} else NamesOpt(ps[0].cond) + PickNames(ps[1..])
  }

  function ChoiceReads(c: ChoiceDef): set<string> {
    ConditionNames(c.prompts) + PickNames(c.picks)
  }

  /** The symbols to which _build_dep adds s as a dependent one. */
  function Reads(k: Kconf, d: SymDef): set<string> {
    ConditionNames(d.prompts) + DefaultNames(d.defaults) + Names(d.rev) + RangeNames(d.ranges)
    + if d.choice.Some? && d.choice.value < |k.choices| then ChoiceReads(k.choices[d.choice.value]) else {}
  }

  // ---------- acyclic configurations ----------

  /** An expression without symbols whose value is not m. */
  predicate Definite(e: Tree) {
    e.Leaf? && e.operand.Str? && e.operand.text != "m"
  }

  /** Depends on nothing. */
  predicate Plain(d: SymDef) {
    && d.choice.None? && d.ranges == [] && Definite(d.rev)
    && (forall p :: p in d.prompts ==> p.None?)
    && (forall x :: x in d.defaults ==> x.cond.None? && Definite(x.value))
  }

  predicate SymOrdered(k: Kconf, s: string)
    requires s in k.syms
  {
    var d := k.syms[s];
    && k.rank(s) <= k.top
    && (forall n :: n in Reads(k, d) ==> n in k.syms && k.rank(n) < k.rank(s))
    && (k.rank(s) == 0 ==> Plain(d) && (d.fixed.Some? || d.typ != E.Tristate))
    && (s == "MODULES" ==> k.rank(s) == 0)
    && (d.fixed.Some? ==> d.choice.None?)
    && (d.choice.Some? ==>
          var c := d.choice.value;
          c < |k.choices| && s in k.choices[c].members && k.choiceRank(c) == k.rank(s))
  }

  predicate ChoiceOrdered(k: Kconf, c: nat)
    requires c < |k.choices|
  {
    var d := k.choices[c];
    && k.choiceRank(c) > 0
    && (forall n :: n in ChoiceReads(d) ==> n in k.syms && k.rank(n) < k.choiceRank(c))
    && (forall m :: m in d.members ==> m in k.syms && k.syms[m].choice == Some(c))
    && (forall p :: p in d.picks ==> p.symbol in d.members)
  }

  /** Dependencies go down in rank, where a choice and its members are one step. MODULES depends on
      nothing, and the symbol m has the value m. */
  ghost predicate Ordered(k: Kconf) {
    && (forall s :: s in k.syms ==> SymOrdered(k, s))
    && (forall c :: 0 <= c < |k.choices| ==> ChoiceOrdered(k, c))
    && ("m" in k.syms ==> k.syms["m"].fixed == Some("m") && k.syms["m"].typ == E.Tristate)
  }

  /** What _set_user_value_no_invalidate accepts for a type. */
  predicate Accepts(k: Kconf, typ: E.SymType, v: string) {
    match typ
    case Boolean => v == "n" || v == "y"
    case Tristate => v == "n" || v == "m" || v == "y"
    case String => true
    case Unknown => false
    case _ => k.number(typ, v).Some?
  }

  /** User values fit the types, and user choices are members. */
  ghost predicate UsersFit(k: Kconf, u: Users) {
    && (forall s :: s in u.val ==> s in k.syms && Accepts(k, k.syms[s].typ, u.val[s]))
    && (forall c :: c in u.selected ==> c < |k.choices| && u.selected[c] in k.choices[c].members)
  }

  // ---------- values ----------

  /** What readers at rank bound see. */
  ghost function SeenTri(k: Kconf, u: Users, n: string, bound: nat): Tri
    requires Ordered(k) && UsersFit(k, u)
    decreases bound, 0
  {
    if n in k.syms && k.rank(n) < bound then TriSeen(k.syms[n], Val(k, u, n)) else NO
  }

  ghost function SeenText(k: Kconf, u: Users, n: string, bound: nat): string
    requires Ordered(k) && UsersFit(k, u)
    decreases bound, 0
  {
    if n in k.syms && k.rank(n) < bound then Val(k, u, n) else ""
  }

  ghost function Look(k: Kconf, u: Users, bound: nat): Valuation
    requires Ordered(k) && UsersFit(k, u)
    decreases bound, 1
  {
    Valuation((n: string) => SeenTri(k, u, n, bound), (n: string) => SeenText(k, u, n, bound))
  }

  /** Only bool and tristate symbols have a tristate value. */
  function TriSeen(d: SymDef, value: string): Tri {
    if TriType(d.typ) then TriOfName(value) else NO
  }

  ghost function HasModules(k: Kconf, u: Users): bool
    requires Ordered(k) && UsersFit(k, u)
    decreases 0, 12
  {
    assert "MODULES" in k.syms ==> SymOrdered(k, "MODULES");
    "MODULES" in k.syms && Val(k, u, "MODULES") == "y"
  }

  /** _eval_expr on a tristate constant: m becomes y without modules. */
  ghost function Up(k: Kconf, u: Users, t: Tri, bound: nat): Tri
    requires Ordered(k) && UsersFit(k, u)
    decreases bound, 0
  {
    if t == MOD && bound > 0 && !HasModules(k, u) then YES else t
  }

  /** _eval_expr */
  ghost function Eval(k: Kconf, u: Users, e: Option<Tree>, bound: nat): Tri
    requires Ordered(k) && UsersFit(k, u)
    decreases bound, 2
  {
    if e.None? then YES else Up(k, u, Value(e.value, Look(k, u, bound)), bound)
  }

  /** The loop over prompts in _get_visibility */
  ghost function Strongest(k: Kconf, u: Users, es: seq<Option<Tree>>, bound: nat): Tri
    requires Ordered(k) && UsersFit(k, u)
    decreases bound, 3, |es|
  {
    if es == [] then NO
    else Max(Up(k, u, Strongest(k, u, es[..|es| - 1], bound), bound), Eval(k, u, es[|es| - 1], bound))
  }

  ghost function ChoiceVis(k: Kconf, u: Users, c: nat): Tri
    requires Ordered(k) && UsersFit(k, u) && c < |k.choices|
    decreases k.choiceRank(c), 4
  {
    Capped(Strongest(k, u, k.choices[c].prompts, k.choiceRank(c)), k.choices[c].typ)
  }

  ghost function SymVis(k: Kconf, u: Users, s: string): Tri
    requires Ordered(k) && UsersFit(k, u) && s in k.syms
    decreases k.rank(s), 5
  {
    assert SymOrdered(k, s);
    var d, r := k.syms[s], k.rank(s);
    var t := Strongest(k, u, d.prompts, r);
    Capped(if d.choice.Some? then Min(Up(k, u, t, r), Up(k, u, ChoiceVis(k, u, d.choice.value), r)) else t, d.typ)
  }

  /** get_mode */
  ghost function Mode(k: Kconf, u: Users, c: nat): Tri
    requires Ordered(k) && UsersFit(k, u) && c < |k.choices|
    decreases k.choiceRank(c), 5
  {
    var t := if c in u.mode then u.mode[c] else if k.choices[c].optional then NO else MOD;
    var r := k.choiceRank(c);
    CappedBool(Min(Up(k, u, t, r), Up(k, u, ChoiceVis(k, u, c), r)), k.choices[c].typ)
  }

  ghost function FirstSeen(k: Kconf, u: Users, c: nat, i: nat): Option<string>
    requires Ordered(k) && UsersFit(k, u) && c < |k.choices|
    decreases k.choiceRank(c), 6, |k.choices[c].members| - i
  {
    var ms := k.choices[c].members;
    assert ChoiceOrdered(k, c);
    if i >= |ms| then None
    else
      assert SymOrdered(k, ms[i]);
      if SymVis(k, u, ms[i]) != NO then Some(ms[i]) else FirstSeen(k, u, c, i + 1)
  }

  /** The symbol of the first default whose condition is not n, otherwise the first member. */
  ghost function Chosen(k: Kconf, u: Users, c: nat, i: nat): (r: string)
    requires Ordered(k) && UsersFit(k, u) && c < |k.choices| && k.choices[c].members != []
    ensures r in k.choices[c].members
    decreases k.choiceRank(c), 6, |k.choices[c].picks| - i
  {
    var ps := k.choices[c].picks;
    assert ChoiceOrdered(k, c);
    if i >= |ps| then k.choices[c].members[0]
    else if Eval(k, u, ps[i].cond, k.choiceRank(c)) != NO then ps[i].symbol
    else Chosen(k, u, c, i + 1)
  }

  /** get_selection_from_defaults */
  ghost function FromDefaults(k: Kconf, u: Users, c: nat): Option<string>
    requires Ordered(k) && UsersFit(k, u) && c < |k.choices|
    decreases k.choiceRank(c), 7
  {
    if k.choices[c].members == [] then None
    else
      var m := Chosen(k, u, c, 0);
      assert ChoiceOrdered(k, c) && SymOrdered(k, m);
      if SymVis(k, u, m) != NO then Some(m) else FirstSeen(k, u, c, 0)
  }

  /** get_selection */
  ghost function Selection(k: Kconf, u: Users, c: nat): Option<string>
    requires Ordered(k) && UsersFit(k, u) && c < |k.choices|
    decreases k.choiceRank(c), 8
  {
    assert ChoiceOrdered(k, c);
    if Mode(k, u, c) != YES then None
    else if c in u.selected && (assert SymOrdered(k, u.selected[c]); SymVis(k, u, u.selected[c]) == YES) then Some(u.selected[c])
    else if k.choices[c].optional then None
    else FromDefaults(k, u, c)
  }

  /** The first default from i on whose condition is not n. */
  ghost function Active(k: Kconf, u: Users, ds: seq<Default>, i: nat, bound: nat): (r: Option<nat>)
    requires Ordered(k) && UsersFit(k, u)
    ensures r.Some? ==> i <= r.value < |ds|
    decreases bound, 3, |ds| - i
  {
    if i >= |ds| then None
    else if Eval(k, u, ds[i].cond, bound) != NO then Some(i)
    else Active(k, u, ds, i + 1, bound)
  }

  /** _get_str_value on an expression that is a symbol or a string */
  ghost function TextOf(k: Kconf, u: Users, e: Tree, bound: nat): string
    requires Ordered(k) && UsersFit(k, u)
    decreases bound, 2
  {
    if e.Leaf? then StrOf(e.operand, Look(k, u, bound)) else ""
  }

  /** A choice value is selected, or follows the user in a choice with mode m. */
  ghost function MemberTri(k: Kconf, u: Users, s: string, c: nat, vis: Tri): Tri
    requires Ordered(k) && UsersFit(k, u) && c < |k.choices|
    decreases k.choiceRank(c), 9
  {
    var mode := Mode(k, u, c);
    if vis == NO || mode == NO then NO
    else if mode == YES then OfBool(Selection(k, u, c) == Some(s))
    else if s in u.val && u.val[s] in {"m", "y"} then MOD else NO
  }

  ghost function DefaultTri(k: Kconf, u: Users, ds: seq<Default>, r: nat): Tri
    requires Ordered(k) && UsersFit(k, u)
    decreases r, 4
  {
    var i := Active(k, u, ds, 0, r);
    if i.None? then NO
    else Min(Eval(k, u, Some(ds[i.value].value), r), Up(k, u, Eval(k, u, ds[i.value].cond, r), r))
  }

  /** The user's value up to the visibility, or the default. */
  ghost function OwnTri(k: Kconf, u: Users, s: string, vis: Tri): Tri
    requires Ordered(k) && UsersFit(k, u) && s in k.syms
    decreases k.rank(s), 5
  {
    var r := k.rank(s);
    if vis != NO && s in u.val then Min(Up(k, u, TriOfName(u.val[s]), r), Up(k, u, vis, r))
    else DefaultTri(k, u, k.syms[s].defaults, r)
  }

  /** At least what selects ask for. */
  ghost function PlainTri(k: Kconf, u: Users, s: string, vis: Tri): Tri
    requires Ordered(k) && UsersFit(k, u) && s in k.syms
    decreases k.rank(s), 6
  {
    var r, own := k.rank(s), OwnTri(k, u, s, vis);
    var rev := Eval(k, u, Some(k.syms[s].rev), r);
    if rev != NO then Max(Up(k, u, own, r), Up(k, u, rev, r)) else own
  }

  ghost function TriValue(k: Kconf, u: Users, s: string): Tri
    requires Ordered(k) && UsersFit(k, u) && s in k.syms
    decreases k.rank(s), 10
  {
    assert SymOrdered(k, s);
    var d, vis := k.syms[s], SymVis(k, u, s);
    CappedBool(if d.choice.Some? then MemberTri(k, u, s, d.choice.value, vis) else PlainTri(k, u, s, vis), d.typ)
  }

  ghost function StringText(k: Kconf, u: Users, s: string): string
    requires Ordered(k) && UsersFit(k, u) && s in k.syms
    decreases k.rank(s), 9
  {
    var d, r := k.syms[s], k.rank(s);
    if SymVis(k, u, s) != NO && s in u.val then u.val[s]
    else
      var i := Active(k, u, d.defaults, 0, r);
      if i.None? then "" else TextOf(k, u, d.defaults[i.value].value, r)
  }

  /** The bounds of the first range whose condition is not n. */
  ghost function Bounds(k: Kconf, u: Users, typ: E.SymType, rs: seq<Range>, i: nat, bound: nat): Option<(int, int)>
    requires Ordered(k) && UsersFit(k, u)
    decreases bound, 3, |rs| - i
  {
    if i >= |rs| then None
    else if Eval(k, u, rs[i].cond, bound) == NO then Bounds(k, u, typ, rs, i + 1, bound)
    else Some((Numeric(k, typ, TextOf(k, u, Leaf(rs[i].low), bound)), Numeric(k, typ, TextOf(k, u, Leaf(rs[i].high), bound))))
  }

  function Numeric(k: Kconf, typ: E.SymType, s: string): int {
    var n := k.number(typ, s);
    if n.None? then 0 else n.value
  }

  function Clamped(k: Kconf, typ: E.SymType, range: Option<(int, int)>, text: string, n: int): string {
    if range.None? then text
    else if n < range.value.0 then k.show(typ, range.value.0)
    else if n > range.value.1 then k.show(typ, range.value.1)
    else text
  }

  /** The loop over the defaults of a numeric symbol. A default that is no number is remembered, but
      the search goes on, and without a number the low end of the range wins if it is positive. */
  ghost function NumericDefault(k: Kconf, u: Users, d: SymDef, range: Option<(int, int)>, i: nat, text: string, bound: nat): string
    requires Ordered(k) && UsersFit(k, u)
    decreases bound, 3, |d.defaults| - i
  {
    if i >= |d.defaults| then
      if range.Some? && range.value.0 > 0 then k.show(d.typ, range.value.0) else text
    else if Eval(k, u, d.defaults[i].cond, bound) == NO then NumericDefault(k, u, d, range, i + 1, text, bound)
    else
      var now := TextOf(k, u, d.defaults[i].value, bound);
      var n := k.number(d.typ, now);
      if n.Some? then Clamped(k, d.typ, range, now, n.value)
      else NumericDefault(k, u, d, range, i + 1, now, bound)
  }

  predicate Acceptable(k: Kconf, typ: E.SymType, range: Option<(int, int)>, text: string) {
    var n := k.number(typ, text);
    n.Some? && (range.Some? ==> range.value.0 <= n.value <= range.value.1)
  }

  ghost function NumericText(k: Kconf, u: Users, s: string): string
    requires Ordered(k) && UsersFit(k, u) && s in k.syms
    decreases k.rank(s), 9
  {
    var d, r := k.syms[s], k.rank(s);
    var range := Bounds(k, u, d.typ, d.ranges, 0, r);
    if SymVis(k, u, s) != NO && s in u.val && Acceptable(k, d.typ, range, u.val[s]) then u.val[s]
    else NumericDefault(k, u, d, range, 0, "", r)
  }

  /** get_value without a cache. */
  ghost function Val(k: Kconf, u: Users, s: string): string
    requires Ordered(k) && UsersFit(k, u) && s in k.syms
    decreases k.rank(s), 11
  {
    var d := k.syms[s];
    if d.fixed.Some? then d.fixed.value
    else match d.typ
      case Unknown => s
      case String => StringText(k, u, s)
      case Int => NumericText(k, u, s)
      case Hex => NumericText(k, u, s)
      case _ => Name(TriValue(k, u, s))
  }
}
