/** The calculation of support/kconfig/symbol.c as it runs: memoised recursion over flags and
    stored values, with the choice selection and modules_val updated on the way. */
module SymbolTable {
  import opened Tristates
  import opened Wrappers
  import opened Expressions
  import opened Calculation
  import opened UserValues
  import opened UserMarks

  /** A snapshot of the mutable part of a table. */
  datatype State = State(
    input: seq<Input>, valid: set<nat>, curr: seq<Value>,
    visible: seq<Tri>, dir: seq<Tri>, rev: seq<Tri>, written: set<nat>, mv: Tri)

  predicate KnownSym(s: Sym, n: nat) {
    s.Var? ==> s.id < n
  }

  predicate Known(e: Expr, n: nat) {
    match e
    case Symbol(s) => KnownSym(s, n)
    case Not(x) => Known(x, n)
    case Bin(_, l, r) => Known(l, n) && Known(r, n)
    case Equal(a, b) => KnownSym(a, n) && KnownSym(b, n)
    case Unequal(a, b) => KnownSym(a, n) && KnownSym(b, n)
  }

  predicate KnownOpt(e: Option<Expr>, n: nat) {
    e.Some? ==> Known(e.value, n)
  }

  /** Every pointer of a definition leads to a symbol of the table, and the members of a choice are
      choice values. */
  ghost predicate KnownDef(d: Def, n: nat) {
    && (forall p :: p in d.prompts ==> KnownOpt(p, n))
    && (forall x :: x in d.defaults ==> Known(x.value, n) && KnownOpt(x.cond, n))
    && KnownOpt(d.dirDep, n) && KnownOpt(d.revDep, n)
    && (forall m :: m in d.members ==> m < n)
    && (d.choiceOf.Some? ==> d.choiceOf.value < n)
  }

  ghost predicate KnownDefs(defs: seq<Def>) {
    && (forall d :: d in defs ==> KnownDef(d, |defs|))
    && (forall c, m :: 0 <= c < |defs| && m in defs[c].members && m < |defs| ==> defs[m].choiceOf == Some(c))
  }

  ghost function Ids(n: nat): (r: set<nat>)
    ensures forall k: nat :: k in r <==> k < n
  {
    if n == 0 then {} else Ids(n - 1) + {n - 1}
  }

  /** How many symbols are still to be calculated. */
  ghost function Open(n: nat, valid: set<nat>): nat {
    |Ids(n) - valid|
  }

  lemma OpenShrinks(n: nat, v: set<nat>, v': set<nat>)
    requires v <= v'
    ensures Open(n, v') <= Open(n, v)
    ensures (exists k :: k < n && k !in v && k in v') ==> Open(n, v') < Open(n, v)
  {
    var a, b := Ids(n) - v, Ids(n) - v';
    SubsetSize(b, a);
    if k :| k < n && k !in v && k in v' {
      SubsetSize(b, a - {k});
    }
  }

  lemma OpenDrops(n: nat, v: set<nat>, s: nat)
    requires s < n && s !in v
    ensures Open(n, v + {s}) < Open(n, v)
  {
    OpenShrinks(n, v, v + {s});
  }

  lemma {:induction false} SubsetSize(a: set<nat>, b: set<nat>)
    requires a <= b
    ensures |a| <= |b|
  {
    if a != {} {
      var x :| x in a;
      SubsetSize(a - {x}, b - {x});
    }
  }

  /** Input may only lose the "given" mark of a choice. */
  predicate InputKept(d: Def, a: Input, b: Input) {
    b == a || (d.isChoice && b == a.(given := false))
  }

  ghost predicate SameSizes(defs: seq<Def>, t: State) {
    && |t.input| == |t.curr| == |t.visible| == |t.dir| == |t.rev| == |defs|
    && (forall k :: k in t.valid ==> k < |defs|)
    && (forall k :: 0 <= k < |defs| && defs[k].choiceOf.Some? ==> t.dir[k] == NO && t.rev[k] == NO)
    && (forall k :: 0 <= k < |defs| && t.input[k].pick.Some? ==> t.input[k].pick.value < |defs|)
  }

  /** Nothing looks at the members of a choice once it is calculated, and nothing but its own
      calculation sets the conditions of a symbol that is in no choice. */
  predicate ConditionsFixed(defs: seq<Def>, a: State, b: State, k: nat)
    requires k < |defs|
  {
    (k in a.valid || k !in b.valid) && (defs[k].choiceOf.Some? ==> defs[k].choiceOf.value in a.valid)
  }

  ghost predicate SameConditions(defs: seq<Def>, a: State, b: State, k: nat)
    requires SameSizes(defs, a) && SameSizes(defs, b) && k < |defs|
  {
    b.visible[k] == a.visible[k] && b.dir[k] == a.dir[k] && b.rev[k] == a.rev[k]
  }

  /** What calls preserve, on any table: what was valid stays valid with its value, conditions stay
      unless a choice looks at its members for the first time, and the input changes only for
      choices calculated meanwhile. The symbols in own are excepted from the first, those in
      looked from the second. */
  ghost predicate Grows(defs: seq<Def>, a: State, b: State, own: set<nat>, looked: set<nat>) {
    && SameSizes(defs, a) && SameSizes(defs, b)
    && a.valid <= b.valid
    && Open(|defs|, b.valid) <= Open(|defs|, a.valid)
    && (forall k :: k in a.valid && k !in own ==> b.curr[k] == a.curr[k] && b.input[k] == a.input[k])
    && (forall k :: k in a.valid && k !in own && defs[k].choiceOf.None? ==> (k in b.written <==> k in a.written))
    && (forall k :: 0 <= k < |defs| && k !in looked && ConditionsFixed(defs, a, b, k) ==> SameConditions(defs, a, b, k))
    && (forall k :: 0 <= k < |defs| && k !in b.valid ==> b.input[k] == a.input[k])
    && (forall k :: 0 <= k < |defs| ==> InputKept(defs[k], a.input[k], b.input[k]))
  }

  lemma GrowsTransitive(defs: seq<Def>, a: State, b: State, c: State, own: set<nat>, looked: set<nat>)
    requires Grows(defs, a, b, own, looked) && Grows(defs, b, c, own, looked)
    ensures Grows(defs, a, c, own, looked)
  {
    forall k | 0 <= k < |defs|
      ensures InputKept(defs[k], a.input[k], c.input[k])
      ensures k !in c.valid ==> c.input[k] == a.input[k]
      ensures k !in looked && ConditionsFixed(defs, a, c, k) ==> SameConditions(defs, a, c, k)
      ensures k in a.valid && k !in own ==> c.curr[k] == a.curr[k] && c.input[k] == a.input[k]
      ensures k in a.valid && k !in own && defs[k].choiceOf.None? ==> (k in c.written <==> k in a.written)
    {
      assert InputKept(defs[k], a.input[k], b.input[k]) && InputKept(defs[k], b.input[k], c.input[k]);
      if k !in looked && ConditionsFixed(defs, a, c, k) {
        assert ConditionsFixed(defs, a, b, k) && ConditionsFixed(defs, b, c, k);
      }
    }
  }

  lemma GrowsWiden(defs: seq<Def>, a: State, b: State, own: set<nat>, looked: set<nat>, own': set<nat>, looked': set<nat>)
    requires Grows(defs, a, b, own, looked) && own <= own' && looked <= looked'
    ensures Grows(defs, a, b, own', looked')
  {
  }

  /** Only symbols of rank below bound have become valid. */
  ghost predicate NewBelow(w: World, a: State, b: State, bound: nat) {
    forall k :: k in b.valid && k !in a.valid ==> w.rank(k) < bound
  }

  /** The stored outcome of symbol k is the one the definition gives. */
  ghost predicate Settled(w: World, t: State, k: nat)
    requires SameSizes(w.defs, t) && WellFormed(w) && k < |w.defs|
  {
    var o := Calc(w, k);
    && t.curr[k] == o.value
    && (w.defs[k].typ != Unknown ==> t.visible[k] == o.visible && t.dir[k] == o.dir && t.rev[k] == o.rev)
    && (w.defs[k].typ != Unknown && w.defs[k].choiceOf.None? ==> (k in t.written <==> o.written))
  }

  /** The choice m belongs to is y, so m looks the way it did when the choice selected a member,
      and if it is visible it is to be written. */
  ghost predicate MemberReady(w: World, t: State, m: nat, c: nat)
    requires SameSizes(w.defs, t) && m < |w.defs|
  {
    && t.visible[m] == MemberVisible(w, m, w.rank(c), c)
    && (t.visible[m] == NO || m in t.written)
  }

  /** A choice has its user mark unless its calculation took it. */
  ghost predicate MarkRight(w: World, t: State, c: nat)
    requires SameSizes(w.defs, t) && WellFormed(w) && c < |w.defs|
  {
    w.defs[c].isChoice ==> t.input[c].given == (w.input[c].given && !LosesMark(w, c))
  }

  ghost predicate MembersReady(w: World, t: State, c: nat)
    requires SameSizes(w.defs, t) && WellFormed(w) && c < |w.defs|
  {
    && MarkRight(w, t, c)
    && (w.defs[c].isChoice && w.defs[c].typ != Unknown && Calc(w, c).value.tri == YES ==>
          forall m :: m in w.defs[c].members && m < |w.defs| && w.defs[m].choiceOf == Some(c) ==> MemberReady(w, t, m, c))
  }

  /** Whether choice c keeps its mark after a look at its first n members. */
  ghost predicate MarkKept(w: World, c: nat, given: bool, n: nat) {
    && c < |w.defs| == |w.input| && n <= |w.defs[c].members|
    && given == (w.input[c].given && forall j :: 0 <= j < n ==> !Unmarked(w, c, w.defs[c].members[j]))
  }

  lemma MarkKeptStart(w: World, c: nat, given: bool)
    requires c < |w.defs| == |w.input| && given == w.input[c].given
    ensures MarkKept(w, c, given, 0)
  {
  }

  lemma MarkKeptStep(w: World, t: State, busy: set<nat>, c: nat, given: bool, i: nat)
    requires Sound(w, t, busy) && c < |w.defs| && w.defs[c].isChoice && w.defs[c].typ != Unknown
    requires MarkKept(w, c, given, i) && i < |w.defs[c].members| && MembersLooked(w, t, c, i + 1)
    ensures var m := w.defs[c].members[i];
      m < |w.defs| && MarkKept(w, c, given && (t.visible[m] != NO ==> t.input[m].given), i + 1)
  {
    MembersRankAbove(w, t, busy, c, i);
    hide Acyclic, ModulesAgree, Settled, MembersReady, MemberVisible;
    var m := w.defs[c].members[i];
    assert InputKept(w.defs[m], w.input[m], t.input[m]);
    assert t.visible[w.defs[c].members[i]] == MemberVisible(w, w.defs[c].members[i], w.rank(c), c);
    assert m in w.defs[c].members;
  }

  lemma MarkIsRight(w: World, t: State, c: nat)
    requires SameSizes(w.defs, t) && WellFormed(w) && c < |w.defs| && w.defs[c].isChoice && HasTri(w.defs[c])
    requires MarkKept(w, c, t.input[c].given, |w.defs[c].members|)
    requires TriD(w, c, Calc(w, c).visible, Calc(w, c).rev) == YES
    ensures MarkRight(w, t, c)
  {
    hide MemberVisible;
    if m :| Unmarked(w, c, m) {
      SelectsSomething(w, c, m);
      var j :| 0 <= j < |w.defs[c].members| && w.defs[c].members[j] == m;
      assert Unmarked(w, c, w.defs[c].members[j]);
    }
  }

  /** Every valid symbol that is not being calculated right now is right. */
  ghost predicate Sound(w: World, t: State, busy: set<nat>) {
    && Acyclic(w) && SameSizes(w.defs, t)
    && (w.modules in t.valid && w.modules !in busy ==> ModulesAgree(w))
    && t.mv == w.mv
    && busy <= t.valid
    && (forall k :: k in t.valid && k !in busy ==> Settled(w, t, k) && MembersReady(w, t, k))
    && (forall k :: k in t.valid && k !in busy && w.defs[k].typ != Unknown && w.defs[k].choiceOf.Some? ==>
          w.defs[k].choiceOf.value in t.valid && w.defs[k].choiceOf.value !in busy)
    && (forall k :: 0 <= k < |w.defs| ==> InputKept(w.defs[k], w.input[k], t.input[k]))
    && (forall k :: 0 <= k < |w.defs| && k !in t.valid ==> t.input[k] == w.input[k])
  }

  /** What is below bound can be calculated before modules_val may change. */
  ghost predicate Allowed(w: World, bound: nat) {
    WellFormed(w) && (ModulesAgree(w) || bound <= w.rank(w.modules))
  }

  /** Nothing being calculated is below bound, and the choice `on` has been given y already. */
  ghost predicate Readable(w: World, t: State, busy: set<nat>, bound: nat, on: Option<nat>)
  {
    && SameSizes(w.defs, t) && Allowed(w, bound)
    && (forall b :: b in busy ==> w.rank(b) >= bound)
    && (on.Some? ==> (on.value in t.valid && t.curr[on.value].tri == YES && HasTri(w.defs[on.value])))
  }

  /** The value of every calculated symbol is right. This lasts even when modules_val changes. */
  ghost predicate ValuesRight(w: World, t: State, busy: set<nat>) {
    && |t.curr| == |w.defs| == |w.input|
    && forall k :: k in t.valid && k !in busy ==> k < |w.defs| && t.curr[k] == Calc(w, k).value
  }

  lemma SoundValues(w: World, t: State, busy: set<nat>)
    requires Sound(w, t, busy)
    ensures ValuesRight(w, t, busy)
  {
    hide SymbolBelow, MembersReady;
    forall k | k in t.valid && k !in busy
      ensures k < |w.defs| && t.curr[k] == Calc(w, k).value
    {
      assert Settled(w, t, k);
    }
  }

  /** Once s is done its value is right as well. */
  lemma OneMoreValue(w: World, a: State, t: State, t': State, busy: set<nat>, bound: nat, s: nat)
    requires Right(w, a, t, busy + {s}, bound) && s < |w.defs| && Settled(w, t, s)
    requires t'.curr == t.curr && t'.valid == t.valid
    ensures ValuesRight(w, t', busy)
  {
    SoundValues(w, t, busy + {s});
  }

  /** What is stored for a readable symbol is what the definition reads. */
  lemma ReadsRight(w: World, t: State, busy: set<nat>, bound: nat, on: Option<nat>, s: Sym)
    requires Sound(w, t, busy) && Readable(w, t, busy, bound, on) && BelowSym(w, s, bound, on)
    requires s.Var? && s.id in t.valid
    ensures t.curr[s.id].tri == SymTri(w, s, bound, on)
    ensures !IsTri(s) ==> t.curr[s.id].str == SymRaw(w, s, bound, on)
  {
    if on != Some(s.id) {
      assert s.id !in busy;
      assert Settled(w, t, s.id);
    }
  }

  lemma ModulesRight(w: World, t: State, busy: set<nat>)
    requires Sound(w, t, busy) && w.modules in t.valid && w.modules !in busy
    ensures t.curr[w.modules].tri == w.mv
  {
    assert Settled(w, t, w.modules);
  }

  lemma GrowsKeepsReadable(w: World, a: State, b: State, busy: set<nat>, bound: nat, on: Option<nat>)
    requires Grows(w.defs, a, b, {}, {}) && Readable(w, a, busy, bound, on)
    ensures Readable(w, b, busy, bound, on)
  {
  }

  /** All symbols of the expression have been calculated. */
  ghost predicate AllValid(e: Expr, valid: set<nat>) {
    forall id, typ :: Contains(e, Var(id, typ)) ==> id in valid
  }

  ghost predicate PromptsValid(d: Def, valid: set<nat>) {
    forall p :: p in d.prompts && p.Some? ==> AllValid(p.value, valid)
  }

  /** The symbols of dir_dep and rev_dep have been calculated. */
  ghost predicate OthersValid(d: Def, valid: set<nat>) {
    && (d.dirDep.Some? ==> AllValid(d.dirDep.value, valid))
    && (d.revDep.Some? ==> AllValid(d.revDep.value, valid))
  }

  /** Everything that sym_calc_visibility reads for a symbol has been calculated. */
  ghost predicate ConditionsValid(d: Def, valid: set<nat>) {
    PromptsValid(d, valid) && (d.choiceOf.None? ==> OthersValid(d, valid))
  }

  /** The table is still right and only symbols of rank below bound have become valid. */
  ghost predicate Right(w: World, a: State, b: State, busy: set<nat>, bound: nat) {
    Sound(w, b, busy) && NewBelow(w, a, b, bound)
  }

  lemma AllValidParts(e: Expr, valid: set<nat>)
    ensures e.Symbol? ==> (AllValid(e, valid) <==> (e.sym.Var? ==> e.sym.id in valid))
    ensures e.Not? && AllValid(e.operand, valid) ==> AllValid(e, valid)
    ensures e.Bin? && AllValid(e.left, valid) && AllValid(e.right, valid) ==> AllValid(e, valid)
    ensures e.Equal? && (e.lhs.Var? ==> e.lhs.id in valid) && (e.rhs.Var? ==> e.rhs.id in valid) ==> AllValid(e, valid)
    ensures e.Unequal? && (e.lhs.Var? ==> e.lhs.id in valid) && (e.rhs.Var? ==> e.rhs.id in valid) ==> AllValid(e, valid)
  {
    if e.Symbol? && e.sym.Var? { assert Contains(e, Var(e.sym.id, e.sym.typ)); }
  }

  lemma AllValidGrows(e: Expr, v: set<nat>, v': set<nat>)
    requires AllValid(e, v) && v <= v'
    ensures AllValid(e, v')
  {
  }

  lemma GrowsReflexive(defs: seq<Def>, t: State)
    requires SameSizes(defs, t)
    ensures Grows(defs, t, t, {}, {})
  {
  }

  lemma RightReflexive(w: World, t: State, busy: set<nat>, bound: nat)
    requires Sound(w, t, busy)
    ensures Right(w, t, t, busy, bound)
  {
  }

  lemma RightTransitive(w: World, a: State, b: State, c: State, busy: set<nat>, bound: nat)
    requires Right(w, a, b, busy, bound) && Right(w, b, c, busy, bound)
    ensures Right(w, a, c, busy, bound)
  {
  }

  lemma StrongestStep(w: World, es: seq<Option<Expr>>, i: nat, bound: nat, on: Option<nat>)
    requires i < |es|
    ensures Strongest(w, es[..i + 1], bound, on) == Max(Strongest(w, es[..i], bound, on), TrisOpt(w, es[i], bound, on))
  {
    assert es[..i + 1][..i] == es[..i];
  }

  lemma StrongestNone(w: World, bound: nat, on: Option<nat>)
    ensures Strongest(w, [], bound, on) == NO
  {
  }

  ghost predicate PromptsBelow(w: World, d: Def, bound: nat, on: Option<nat>) {
    forall p :: p in d.prompts ==> BelowOpt(w, p, bound, on)
  }

  /** The first i prompts have been evaluated, t is the strongest of them. */
  ghost predicate PromptsDone(d: Def, i: nat, valid: set<nat>) {
    forall j :: 0 <= j < i && j < |d.prompts| && d.prompts[j].Some? ==> AllValid(d.prompts[j].value, valid)
  }

  lemma PromptsNoneDone(d: Def, valid: set<nat>)
    ensures PromptsDone(d, 0, valid)
  {
  }

  lemma PromptsDoneStep(d: Def, i: nat, valid: set<nat>)
    requires PromptsDone(d, i, valid) && i < |d.prompts|
    requires d.prompts[i].Some? ==> AllValid(d.prompts[i].value, valid)
    ensures PromptsDone(d, i + 1, valid)
  {
  }

  lemma PromptsAllDone(d: Def, valid: set<nat>)
    requires PromptsDone(d, |d.prompts|, valid)
    ensures PromptsValid(d, valid)
  {
  }

  lemma PromptBelow(w: World, d: Def, i: nat, bound: nat, on: Option<nat>)
    requires PromptsBelow(w, d, bound, on) && i < |d.prompts|
    ensures BelowOpt(w, d.prompts[i], bound, on)
  {
    assert d.prompts[i] in d.prompts;
  }

  lemma PromptsDoneGrows(d: Def, i: nat, v: set<nat>, v': set<nat>)
    requires PromptsDone(d, i, v) && v <= v'
    ensures PromptsDone(d, i, v')
  {
  }

  lemma PromptKnown(defs: seq<Def>, s: nat, i: nat)
    requires KnownDefs(defs) && s < |defs| && i < |defs[s].prompts|
    ensures KnownOpt(defs[s].prompts[i], |defs|)
  {
    assert defs[s] in defs && defs[s].prompts[i] in defs[s].prompts;
  }

  /** The stored visibility of s is what a reader at rank bound sees; for a symbol in no choice
      the other two conditions are right as well. */
  ghost predicate Looked(w: World, t: State, s: nat, bound: nat, on: Option<nat>) {
    && SameSizes(w.defs, t) && s < |w.defs|
    && t.visible[s] == VisibleD(w, w.defs[s], bound, on)
    && (w.defs[s].choiceOf.None? ==>
          t.dir[s] == DirD(w, w.defs[s], bound) && t.rev[s] == RevD(w, w.defs[s], t.visible[s], bound))
  }

  /** Storing the conditions of s cannot make a finished symbol wrong. */
  ghost predicate MayStore(w: World, t: State, busy: set<nat>, s: nat, bound: nat, on: Option<nat>) {
    && s < |w.defs|
    && (s in t.valid && s !in busy ==> bound == w.rank(s) && on == None && w.defs[s].typ != Unknown)
    && (w.defs[s].choiceOf.Some? ==> (bound == w.rank(s) && on == None) || (on == w.defs[s].choiceOf && on.value in busy))
  }

  /** The other conditions of a symbol in no choice may be read at its rank. */
  ghost predicate OtherConditionsBelow(w: World, s: nat, bound: nat, on: Option<nat>) {
    && s < |w.defs| && w.defs[s].typ != Unknown && w.rank(s) >= bound
    && (w.defs[s].choiceOf.None? ==>
          && bound == w.rank(s) && on == None
          && BelowOpt(w, w.defs[s].dirDep, bound, None) && BelowOpt(w, w.defs[s].revDep, bound, None))
  }

  /** t with the three conditions of s replaced. */
  ghost function WithConditions(t: State, s: nat, x: Tri, y: Tri, z: Tri): State
    requires s < |t.visible| && s < |t.dir| && s < |t.rev|
  {
    t.(visible := t.visible[s := x], dir := t.dir[s := y], rev := t.rev[s := z])
  }

  lemma SizesOf(defs: seq<Def>, t: State)
    requires SameSizes(defs, t)
    ensures |t.input| == |t.curr| == |t.visible| == |t.dir| == |t.rev| == |defs|
  {
  }

  lemma MvOf(w: World, t: State, busy: set<nat>)
    requires Sound(w, t, busy)
    ensures t.mv == w.mv
  {
  }

  lemma VisibleOf(w: World, s: nat, bound: nat, on: Option<nat>)
    requires s < |w.defs|
    ensures VisibleD(w, w.defs[s], bound, on) == VisibleFrom(Strongest(w, w.defs[s].prompts, bound, on), w.defs[s], w.mv)
  {
  }

  /** A finished symbol already has the conditions its calculation would store again. */
  lemma Finished(w: World, t: State, busy: set<nat>, s: nat, bound: nat, on: Option<nat>)
    requires Sound(w, t, busy) && MayStore(w, t, busy, s, bound, on) && OtherConditionsBelow(w, s, bound, on)
    ensures s in t.valid && s !in busy ==>
      && t.visible[s] == VisibleD(w, w.defs[s], bound, on)
      && t.dir[s] == DirD(w, w.defs[s], bound) && t.rev[s] == RevD(w, w.defs[s], t.visible[s], bound)
  {
    if s in t.valid && s !in busy { assert Settled(w, t, s); }
  }

  /** Storing right conditions, or those already there, keeps the table right. */
  lemma StoreStep(w: World, a: State, t: State, busy: set<nat>, bound: nat, on: Option<nat>, s: nat, x: Tri, y: Tri, z: Tri)
    requires Right(w, a, t, busy, bound) && a.valid <= t.valid
    requires MayStore(w, a, busy, s, bound, on) && OtherConditionsBelow(w, s, bound, on)
    requires x == t.visible[s] || x == VisibleD(w, w.defs[s], bound, on)
    requires y == t.dir[s] || y == DirD(w, w.defs[s], bound)
    requires z == t.rev[s] || z == RevD(w, w.defs[s], t.visible[s], bound)
    ensures Right(w, a, WithConditions(t, s, x, y, z), busy, bound)
  {
    hide Acyclic, ModulesAgree, Settled;
    if s in t.valid && s !in busy {
      assert s in a.valid;
      Finished(w, t, busy, s, bound, on);
    }
    if w.defs[s].choiceOf.Some? { StoreMember(w, t, busy, bound, on, s, x); }
    StoreSound(w, t, busy, s, x, y, z);
  }

  /** A choice value whose choice is settled keeps the visibility it had then. */
  lemma StoreMember(w: World, t: State, busy: set<nat>, bound: nat, on: Option<nat>, s: nat, x: Tri)
    requires Sound(w, t, busy) && MayStore(w, t, busy, s, bound, on) && w.defs[s].choiceOf.Some? && w.defs[s].typ != Unknown
    requires x == t.visible[s] || x == VisibleD(w, w.defs[s], bound, on)
    ensures MemberMayShow(w, t, busy, s, x)
  {
    hide ModulesAgree, Settled;
    Family(w, s);
    var c := w.defs[s].choiceOf.value;
    if c in t.valid && c !in busy && Calc(w, c).value.tri == YES {
      assert MembersReady(w, t, c);
      MemberVisibilitySettles(w, s);
    }
  }

  ghost predicate MemberMayShow(w: World, t: State, busy: set<nat>, s: nat, x: Tri)
    requires WellFormed(w) && s < |w.defs|
  {
    w.defs[s].choiceOf.Some? ==>
      var c := w.defs[s].choiceOf.value;
      c < |w.defs| && c in t.valid && c !in busy && Calc(w, c).value.tri == YES ==> x == MemberVisible(w, s, w.rank(c), c)
  }

  ghost predicate DefaultsBelow(w: World, d: Def, bound: nat, on: Option<nat>) {
    forall x :: x in d.defaults ==> BelowOpt(w, x.cond, bound, on) && (!d.isChoice ==> Below(w, x.value, bound, on))
  }

  lemma DefaultBelow(w: World, d: Def, i: nat, bound: nat, on: Option<nat>)
    requires DefaultsBelow(w, d, bound, on) && i < |d.defaults|
    ensures BelowOpt(w, d.defaults[i].cond, bound, on) && (!d.isChoice ==> Below(w, d.defaults[i].value, bound, on))
  {
    assert d.defaults[i] in d.defaults;
  }

  lemma DefaultKnown(defs: seq<Def>, s: nat, i: nat)
    requires KnownDefs(defs) && s < |defs| && i < |defs[s].defaults|
    ensures Known(defs[s].defaults[i].value, |defs|) && KnownOpt(defs[s].defaults[i].cond, |defs|)
  {
    assert defs[s] in defs && defs[s].defaults[i] in defs[s].defaults;
  }

  ghost predicate DefaultsReadable(w: World, s: nat) {
    s < |w.defs| == |w.input| && (!w.defs[s].isChoice ==> DefaultsBelow(w, w.defs[s], w.rank(s), None))
  }

  /** The choice of a choice value has been calculated, so its selection is known. */
  ghost predicate ChoiceRight(w: World, t: State, s: nat) {
    && SameSizes(w.defs, t) && s < |w.defs| == |w.input|
    && (w.defs[s].choiceOf.Some? ==>
          var c := w.defs[s].choiceOf.value;
          c < |w.defs| && w.rank(c) < w.rank(s) && t.curr[c] == Calc(w, c).value)
  }

  lemma ChoiceKnown(defs: seq<Def>, s: nat)
    requires KnownDefs(defs) && s < |defs|
    ensures defs[s].choiceOf.Some? ==> defs[s].choiceOf.value < |defs|
  {
    assert defs[s] in defs;
  }

  lemma ReadsRightRaw(w: World, t: State, busy: set<nat>, bound: nat, s: Sym)
    requires Sound(w, t, busy) && Readable(w, t, busy, bound, None) && BelowSym(w, s, bound, None)
    requires s.Var? && s.id in t.valid
    ensures t.curr[s.id].str == SymRaw(w, s, bound, None)
  {
    assert s.id !in busy && Settled(w, t, s.id);
  }

  /** The first n members of choice c look the way the definition says. */
  ghost predicate MembersLooked(w: World, t: State, c: nat, n: nat) {
    && SameSizes(w.defs, t) && c < |w.defs| && n <= |w.defs[c].members|
    && (forall j :: 0 <= j < n ==> w.defs[c].members[j] < |w.defs|)
    && (forall j :: 0 <= j < n ==> t.visible[w.defs[c].members[j]] == MemberVisible(w, w.defs[c].members[j], w.rank(c), c))
  }

  lemma MembersKnown(defs: seq<Def>, c: nat, i: nat)
    requires KnownDefs(defs) && c < |defs| && i < |defs[c].members|
    ensures defs[c].members[i] < |defs| && defs[defs[c].members[i]].choiceOf == Some(c)
  {
    assert defs[c] in defs && defs[c].members[i] in defs[c].members;
  }

  lemma NamedKnown(e: Expr, n: nat)
    requires Known(e, n)
    ensures NamedSymbol(e).Some? ==> NamedSymbol(e).value < n
  {
  }

  lemma NamedLooked(w: World, t: State, c: nat, i: nat)
    requires c < |w.defs| == |w.input| && i < |w.defs[c].defaults|
    requires MembersLooked(w, t, c, |w.defs[c].members|) && ChoiceBelow(w, c)
    ensures var named := NamedSymbol(w.defs[c].defaults[i].value);
            named.Some? && named.value < |w.defs| && t.visible[named.value] == MemberVisible(w, named.value, w.rank(c), c)
  {
    assert w.defs[c].defaults[i] in w.defs[c].defaults;
  }

  lemma ChoiceFacts(w: World, t: State, busy: set<nat>, c: nat)
    requires Sound(w, t, busy) && c < |w.defs| && w.defs[c].isChoice && w.defs[c].typ != Unknown
    ensures |w.defs| == |w.input| && ChoiceBelow(w, c) && DefaultsBelow(w, w.defs[c], w.rank(c), Some(c))
  {
    assert SymbolBelow(w, c);
  }

  /** Members rank above their choice, so nothing below it makes them valid. */
  lemma MembersRankAbove(w: World, t: State, busy: set<nat>, c: nat, j: nat)
    requires Sound(w, t, busy) && c < |w.defs| && w.defs[c].isChoice && w.defs[c].typ != Unknown && j < |w.defs[c].members|
    ensures var m := w.defs[c].members[j];
            m < |w.defs| && w.rank(m) > w.rank(c) && w.defs[m].choiceOf == Some(c) && w.defs[m].typ != Unknown && MemberBelow(w, m)
  {
    assert SymbolBelow(w, c);
    assert w.defs[c].members[j] in w.defs[c].members;
    assert SymbolBelow(w, w.defs[c].members[j]);
  }

  lemma MembersStayLooked(w: World, a: State, b: State, busy: set<nat>, c: nat)
    requires Grows(w.defs, a, b, {}, {}) && Right(w, a, b, busy, w.rank(c))
    requires c in a.valid && c < |w.defs| && w.defs[c].isChoice && w.defs[c].typ != Unknown
    requires MembersLooked(w, a, c, |w.defs[c].members|)
    ensures MembersLooked(w, b, c, |w.defs[c].members|)
  {
    hide Acyclic, ModulesAgree, Settled, MemberVisible;
    forall j | 0 <= j < |w.defs[c].members|
      ensures b.visible[w.defs[c].members[j]] == a.visible[w.defs[c].members[j]]
    {
      MemberStays(w, a, b, busy, c, j, {});
    }
  }

  ghost function MembersOf(defs: seq<Def>, c: nat): set<nat>
    requires c < |defs|
  {
    set m | m in defs[c].members
  }

  /** No member is finished while its choice is being calculated. */
  ghost predicate MembersOpen(w: World, t: State, busy: set<nat>, c: nat) {
    c < |w.defs| && forall m :: m in w.defs[c].members ==> m !in t.valid || m in busy
  }

  lemma NoneLooked(w: World, t: State, c: nat)
    requires SameSizes(w.defs, t) && c < |w.defs|
    ensures MembersLooked(w, t, c, 0)
  {
  }

  lemma MemberMayStore(w: World, a: State, b: State, busy: set<nat>, c: nat, i: nat)
    requires MembersOpen(w, a, busy, c) && Right(w, a, b, busy, w.rank(c)) && c in busy
    requires w.defs[c].isChoice && w.defs[c].typ != Unknown && i < |w.defs[c].members|
    ensures var m := w.defs[c].members[i];
            && MayStore(w, b, busy, m, w.rank(c), Some(c)) && OtherConditionsBelow(w, m, w.rank(c), Some(c))
            && PromptsBelow(w, w.defs[m], w.rank(c), Some(c))
  {
    hide ModulesAgree, Settled;
    MembersRankAbove(w, b, busy, c, i);
    assert w.defs[c].members[i] in w.defs[c].members;
  }

  lemma MemberStays(w: World, a: State, b: State, busy: set<nat>, c: nat, j: nat, looked: set<nat>)
    requires c in a.valid && c < |w.defs| && w.defs[c].isChoice && w.defs[c].typ != Unknown && j < |w.defs[c].members|
    requires Grows(w.defs, a, b, {}, looked) && Right(w, a, b, busy, w.rank(c))
    requires w.defs[c].members[j] !in looked
    ensures w.defs[c].members[j] < |w.defs| && b.visible[w.defs[c].members[j]] == a.visible[w.defs[c].members[j]]
  {
    hide Acyclic, ModulesAgree, Settled;
    MembersRankAbove(w, b, busy, c, j);
    assert ConditionsFixed(w.defs, a, b, w.defs[c].members[j]);
  }

  lemma OneMoreLooked(w: World, a: State, b: State, busy: set<nat>, c: nat, n: nat)
    requires c in a.valid && c < |w.defs| && w.defs[c].isChoice && w.defs[c].typ != Unknown && n < |w.defs[c].members|
    requires Grows(w.defs, a, b, {}, {w.defs[c].members[n]}) && Right(w, a, b, busy, w.rank(c))
    requires MembersLooked(w, a, c, n) && Looked(w, b, w.defs[c].members[n], w.rank(c), Some(c))
    ensures MembersLooked(w, b, c, n + 1)
  {
    hide Grows, Right, VisibleD;
    var m := w.defs[c].members[n];
    forall j | 0 <= j < n + 1
      ensures w.defs[c].members[j] < |w.defs|
      ensures b.visible[w.defs[c].members[j]] == MemberVisible(w, w.defs[c].members[j], w.rank(c), c)
    {
      if w.defs[c].members[j] != m {
        MemberStays(w, a, b, busy, c, j, {m});
      }
    }
  }

  lemma KeepsOwn(defs: seq<Def>, a: State, b: State, c: nat, looked: set<nat>)
    requires Grows(defs, a, b, {}, looked) && c in a.valid && c < |defs|
    ensures b.curr[c] == a.curr[c] && b.input[c] == a.input[c] && c in b.valid
    ensures defs[c].choiceOf.None? ==> (c in b.written <==> c in a.written)
  {
  }

  lemma UnmarkGrows(defs: seq<Def>, a: State, t: State, c: nat, looked: set<nat>, given: bool)
    requires Grows(defs, a, t, {}, looked) && c in a.valid && c < |defs| && defs[c].isChoice
    requires given ==> t.input[c].given
    ensures Grows(defs, a, t.(input := t.input[c := t.input[c].(given := given)]), {c}, looked)
  {
    hide ConditionsFixed, SameConditions, Open;
    var t' := t.(input := t.input[c := t.input[c].(given := given)]);
    assert SameSizes(defs, t');
    SameConditionsGrows(defs, a, t, t', {}, looked);
    forall k | 0 <= k < |defs|
      ensures InputKept(defs[k], a.input[k], t'.input[k])
      ensures k !in t'.valid ==> t'.input[k] == a.input[k]
    {
      assert InputKept(defs[k], a.input[k], t.input[k]);
    }
    assert forall k :: k in a.valid && k !in {c} ==> t'.curr[k] == a.curr[k] && t'.input[k] == a.input[k];
  }

  /** The part of Grows about conditions survives every change of other fields. */
  lemma SameConditionsGrows(defs: seq<Def>, a: State, t: State, t': State, own: set<nat>, looked: set<nat>)
    requires Grows(defs, a, t, own, looked) && SameSizes(defs, t')
    requires t'.valid == t.valid && t'.visible == t.visible && t'.dir == t.dir && t'.rev == t.rev
    ensures forall k :: 0 <= k < |defs| && k !in looked && ConditionsFixed(defs, a, t', k) ==> SameConditions(defs, a, t', k)
  {
    forall k | 0 <= k < |defs| && k !in looked && ConditionsFixed(defs, a, t', k)
      ensures SameConditions(defs, a, t', k)
    {
      assert ConditionsFixed(defs, a, t, k);
    }
  }

  lemma UnmarkRight(w: World, a: State, t: State, busy: set<nat>, bound: nat, c: nat, given: bool)
    requires Right(w, a, t, busy, bound) && c in busy && c in t.valid && c < |w.defs| && w.defs[c].isChoice
    requires given ==> t.input[c].given
    ensures Right(w, a, t.(input := t.input[c := t.input[c].(given := given)]), busy, bound)
  {
    hide SymbolBelow, ModulesAgree;
    var t' := t.(input := t.input[c := t.input[c].(given := given)]);
    forall k | k in t'.valid && k !in busy
      ensures Settled(w, t', k) && MembersReady(w, t', k)
    {
      assert Settled(w, t, k) && MembersReady(w, t, k);
    }
  }

  lemma UnmarkLooked(w: World, t: State, t': State, c: nat)
    requires c < |w.defs| && MembersLooked(w, t, c, |w.defs[c].members|)
    requires SameSizes(w.defs, t') && t'.visible == t.visible
    ensures MembersLooked(w, t', c, |w.defs[c].members|)
  {
  }

  /** Only the value of c and write marks of c and of choice values differ. */
  ghost predicate OnlyOwn(defs: seq<Def>, t: State, t': State, c: nat) {
    && c < |t.curr| == |t'.curr|
    && t' == t.(curr := t.curr[c := t'.curr[c]], written := t'.written)
    && (forall k :: 0 <= k < |defs| && k != c && defs[k].choiceOf.None? ==> (k in t'.written <==> k in t.written))
    && (forall k :: 0 <= k < |defs| && defs[k].choiceOf.Some? && k in t.written ==> k in t'.written)
  }

  lemma OwnGrows(defs: seq<Def>, a: State, t: State, t': State, c: nat, looked: set<nat>)
    requires Grows(defs, a, t, {c}, looked) && c < |defs| && OnlyOwn(defs, t, t', c)
    ensures Grows(defs, a, t', {c}, looked)
  {
    forall k | 0 <= k < |defs| && k !in looked && ConditionsFixed(defs, a, t', k)
      ensures SameConditions(defs, a, t', k)
    {
      assert ConditionsFixed(defs, a, t, k);
    }
  }

  /** The first i members of choice c have been marked for writing, if c is marked and they are visible. */
  ghost predicate MarkedUpTo(defs: seq<Def>, t: State, written: set<nat>, c: nat, i: nat) {
    && c < |defs| && i <= |defs[c].members| && t.written <= written
    && (forall k :: 0 <= k < |defs| && defs[k].choiceOf.None? ==> (k in written <==> k in t.written))
    && (forall k :: k in written - t.written ==> c in t.written && k in defs[c].members && k < |t.visible| && t.visible[k] != NO)
    && (c in t.written ==>
          forall j :: 0 <= j < i ==>
            defs[c].members[j] < |t.visible| && (t.visible[defs[c].members[j]] != NO ==> defs[c].members[j] in written))
  }

  lemma MarkedIsOwn(defs: seq<Def>, t: State, written: set<nat>, c: nat)
    requires c < |defs| && MarkedUpTo(defs, t, written, c, |defs[c].members|) && SameSizes(defs, t)
    ensures OnlyOwn(defs, t, t.(written := written), c) && SameSizes(defs, t.(written := written))
  {
  }

  lemma MarkedIsReady(w: World, t: State, written: set<nat>, c: nat)
    requires c < |w.defs| && MarkedUpTo(w.defs, t, written, c, |w.defs[c].members|) && SameSizes(w.defs, t) && WellFormed(w) && Settled(w, t, c)
    requires Calc(w, c).value.tri == YES ==> c in t.written && MembersLooked(w, t, c, |w.defs[c].members|)
    requires MarkRight(w, t, c)
    ensures Settled(w, t.(written := written), c) && MembersReady(w, t.(written := written), c)
  {
    hide Calc, MemberVisible, LosesMark;
  }

  lemma OwnRight(w: World, a: State, t: State, t': State, busy: set<nat>, bound: nat, c: nat)
    requires Right(w, a, t, busy, bound) && c in busy && c < |w.defs| && OnlyOwn(w.defs, t, t', c)
    ensures Right(w, a, t', busy, bound)
  {
    hide SymbolBelow, ModulesAgree;
    forall k | k in t'.valid && k !in busy
      ensures Settled(w, t', k) && MembersReady(w, t', k)
    {
      assert Settled(w, t, k) && MembersReady(w, t, k);
    }
  }

  lemma PickKept(w: World, t: State, busy: set<nat>, c: nat)
    requires Sound(w, t, busy) && c < |w.defs| && w.defs[c].isChoice && w.defs[c].typ != Unknown
    requires MembersLooked(w, t, c, |w.defs[c].members|)
    ensures |w.input| == |w.defs| && t.input[c].pick == w.input[c].pick
    ensures t.input[c].pick.Some? ==> t.input[c].pick.value < |w.defs|
    ensures t.input[c].pick.Some? ==>
      t.visible[t.input[c].pick.value] == MemberVisible(w, t.input[c].pick.value, w.rank(c), c)
  {
    assert SymbolBelow(w, c);
    assert InputKept(w.defs[c], w.input[c], t.input[c]);
  }

  lemma ReadableStays(w: World, a: State, b: State, busy: set<nat>, c: nat)
    requires Readable(w, a, busy, w.rank(c), Some(c)) && SameSizes(w.defs, b)
    requires c in b.valid && c < |w.defs| && b.curr[c] == a.curr[c]
    ensures Readable(w, b, busy, w.rank(c), Some(c))
  {
  }

  lemma StartSound(w: World, a: State, t: State, busy: set<nat>, s: nat)
    requires Sound(w, a, busy) && s < |w.defs| && s !in a.valid
    requires t == a.(valid := a.valid + {s}, written := t.written) && SameSizes(w.defs, t)
    requires forall k :: k != s || w.defs[s].choiceOf.Some? ==> (k in t.written <==> k in a.written)
    requires forall b :: b in busy ==> w.rank(b) > w.rank(s)
    requires Allowed(w, w.rank(s))
    ensures Sound(w, t, busy + {s}) && Readable(w, t, busy + {s}, w.rank(s), None) && t.input[s] == w.input[s]
  {
    hide SymbolBelow, ModulesAgree;
    forall k | k in t.valid && k !in busy + {s}
      ensures Settled(w, t, k) && MembersReady(w, t, k)
    {
      assert Settled(w, a, k) && MembersReady(w, a, k);
    }
  }

  lemma FreshNotFixed(defs: seq<Def>, a: State, b: State, s: nat, k: nat)
    requires KnownDefs(defs) && s < |defs| && k < |defs| && s !in a.valid && s in b.valid
    requires k in {s} + MembersOf(defs, s)
    ensures !ConditionsFixed(defs, a, b, k)
  {
  }

  /** A symbol that was not valid may change in any way; so may the members of a new choice. */
  lemma FreshGrows(defs: seq<Def>, a: State, t: State, b: State, s: nat)
    requires SameSizes(defs, a) && SameSizes(defs, t) && s < |defs| && s !in a.valid && KnownDefs(defs)
    requires t == a.(valid := a.valid + {s}, written := t.written)
    requires forall k :: k != s ==> (k in t.written <==> k in a.written)
    requires Grows(defs, t, b, {s}, {s} + MembersOf(defs, s))
    ensures Grows(defs, a, b, {}, {})
  {
    hide KnownDefs, MembersOf, Open;
    OpenShrinks(|defs|, a.valid, t.valid);
    FreshConditions(defs, a, t, b, s);
    assert forall k :: k in a.valid ==> k in t.valid && k !in {s};
    assert forall k :: 0 <= k < |defs| && k !in b.valid ==> b.input[k] == a.input[k];
  }

  lemma FreshConditions(defs: seq<Def>, a: State, t: State, b: State, s: nat)
    requires SameSizes(defs, a) && SameSizes(defs, t) && s < |defs| && s !in a.valid && KnownDefs(defs)
    requires t == a.(valid := a.valid + {s}, written := t.written)
    requires Grows(defs, t, b, {s}, {s} + MembersOf(defs, s))
    ensures forall k :: 0 <= k < |defs| && ConditionsFixed(defs, a, b, k) ==> SameConditions(defs, a, b, k)
  {
    hide KnownDefs, MembersOf, Open;
    forall k | 0 <= k < |defs| && ConditionsFixed(defs, a, b, k)
      ensures SameConditions(defs, a, b, k)
    {
      if k in {s} + MembersOf(defs, s) { FreshNotFixed(defs, a, b, s, k); }
      assert ConditionsFixed(defs, t, b, k);
    }
  }

  lemma FinishSound(w: World, a: State, t: State, b: State, busy: set<nat>, s: nat)
    requires Sound(w, a, busy) && s < |w.defs| && s !in a.valid && t.valid == a.valid + {s}
    requires Right(w, t, b, busy + {s}, w.rank(s)) && t.valid <= b.valid
    requires Settled(w, b, s) && MembersReady(w, b, s) && (s == w.modules ==> ModulesAgree(w))
    requires w.defs[s].typ != Unknown && w.defs[s].choiceOf.Some? ==>
      w.defs[s].choiceOf.value in b.valid && w.defs[s].choiceOf.value !in busy + {s}
    ensures Right(w, a, b, busy, w.rank(s) + 1)
  {
    hide SymbolBelow, ModulesAgree, Settled, MembersReady;
    forall k | k in b.valid && k !in busy
      ensures Settled(w, b, k) && MembersReady(w, b, k)
      ensures w.defs[k].typ != Unknown && w.defs[k].choiceOf.Some? ==>
        w.defs[k].choiceOf.value in b.valid && w.defs[k].choiceOf.value !in busy
    {
      if k != s {
        assert k !in busy + {s};
      }
    }
  }

  /** All that the definition of s reads is below its rank. */
  ghost predicate BodyReadable(w: World, s: nat) {
    && s < |w.defs| == |w.input|
    && PromptsBelow(w, w.defs[s], w.rank(s), None) && OtherConditionsBelow(w, s, w.rank(s), None)
    && DefaultsReadable(w, s) && (HasText(w.defs[s]) ==> !w.defs[s].isChoice)
    && (w.defs[s].choiceOf.Some? ==> MemberBelow(w, s))
  }

  lemma BodyFacts(w: World, t: State, busy: set<nat>, s: nat)
    requires Sound(w, t, busy) && s < |w.defs|
    ensures WellFormed(w)
    ensures w.defs[s].typ != Unknown ==> BodyReadable(w, s)
    ensures w.defs[s].typ != Unknown && w.defs[s].isChoice ==> ChoiceBelow(w, s)
  {
    hide ModulesAgree, Settled;
    assert SymbolBelow(w, s);
    if w.defs[s].typ != Unknown && w.defs[s].choiceOf.Some? {
      var c := w.defs[s].choiceOf.value;
      forall p | p in w.defs[s].prompts
        ensures BelowOpt(w, p, w.rank(s), None)
      {
        BelowHigher(w, p.value, w.rank(c), Some(c), w.rank(s));
      }
    }
  }

  /** The conditions of s are right and v and mark are its value, but for the selection of a choice,
      and its write mark. */
  ghost predicate OwnIs(w: World, t: State, s: nat, v: Value, mark: bool) {
    && s < |w.defs| == |w.input| && Looked(w, t, s, w.rank(s), None)
    && var d := w.defs[s];
    && v == (if HasText(d) then Value(NO, TextD(w, s, t.visible[s]), None)
             else Value(TriD(w, s, t.visible[s], t.rev[s]), "n", None))
    && (d.choiceOf.None? ==> mark == WrittenD(w, s, t.visible[s], t.rev[s]))
  }

  ghost predicate OwnDone(w: World, t: State, s: nat) {
    SameSizes(w.defs, t) && s < |w.defs| && OwnIs(w, t, s, t.curr[s], s in t.written)
  }

  lemma OwnStored(w: World, t: State, t': State, s: nat, v: Value, mark: bool)
    requires OwnIs(w, t, s, v, mark) && s < |t.curr|
    requires w.defs[s].choiceOf.None? ==> s !in t.written
    requires t' == t.(curr := t.curr[s := v], written := if mark then t.written + {s} else t.written)
    ensures OwnDone(w, t', s)
  {
    hide VisibleD, DirD, RevD, TextD, TriD, WrittenD;
  }

  /** A choice value mentions its choice in its prompts, so the choice has been calculated. */
  lemma ChoiceIsRight(w: World, t: State, busy: set<nat>, s: nat)
    requires Sound(w, t, busy) && BodyReadable(w, s) && ConditionsValid(w.defs[s], t.valid)
    requires forall b :: b in busy ==> w.rank(b) >= w.rank(s)
    ensures ChoiceRight(w, t, s)
    ensures w.defs[s].choiceOf.Some? ==> w.defs[s].choiceOf.value in t.valid && w.defs[s].choiceOf.value !in busy
  {
    if w.defs[s].choiceOf.Some? {
      var c := w.defs[s].choiceOf.value;
      var p := w.defs[s].prompts[0];
      assert p in w.defs[s].prompts;
      assert AllValid(p.value, t.valid) && Contains(p.value, Var(c, w.defs[c].typ));
      assert Settled(w, t, c);
    }
  }

  lemma KeepsLooked(w: World, a: State, b: State, s: nat)
    requires Grows(w.defs, a, b, {}, {}) && s in a.valid && Looked(w, a, s, w.rank(s), None)
    requires w.defs[s].choiceOf.Some? ==> w.defs[s].choiceOf.value in a.valid
    ensures Looked(w, b, s, w.rank(s), None) && SameConditions(w.defs, a, b, s)
  {
    assert ConditionsFixed(w.defs, a, b, s);
  }

  /** A symbol that has no member to select is done. */
  lemma SettledOwn(w: World, t: State, s: nat)
    requires OwnDone(w, t, s) && WellFormed(w) && w.defs[s].typ != Unknown
    requires w.defs[s].isChoice ==> t.curr[s].tri != YES
    ensures Settled(w, t, s)
  {
  }

  lemma OffKeepsMark(w: World, t: State, s: nat)
    requires SameSizes(w.defs, t) && WellFormed(w) && s < |w.defs| && Settled(w, t, s) && t.input[s] == w.input[s]
    requires w.defs[s].isChoice ==> t.curr[s].tri != YES
    ensures MarkRight(w, t, s)
  {
  }

  /** The same for a choice that selects one. */
  lemma SettledChoice(w: World, t: State, t': State, s: nat, pick: Option<nat>)
    requires OwnDone(w, t, s) && WellFormed(w) && w.defs[s].isChoice && HasTri(w.defs[s]) && w.defs[s].choiceOf.None?
    requires t.curr[s].tri == YES && pick == PickD(w, s, w.rank(s))
    requires SameSizes(w.defs, t') && SameConditions(w.defs, t, t', s) && (s in t'.written <==> s in t.written)
    requires t'.curr[s] == t.curr[s].(tri := if pick.None? then NO else YES, pick := pick)
    ensures Settled(w, t', s)
  {
  }

  lemma YesIsWritten(w: World, s: nat)
    requires s < |w.defs| == |w.input| && w.defs[s].isChoice && w.defs[s].typ != Unknown && HasTri(w.defs[s]) && w.defs[s].choiceOf.None?
    ensures Calc(w, s).value.tri == YES ==> Calc(w, s).written
  {
    var visible, rev := Calc(w, s).visible, Calc(w, s).rev;
    assert OwnTri(w, s, visible) == if visible != NO && w.input[s].given then Min(w.input[s].tri, visible) else NO;
    assert TriD(w, s, visible, rev) == Promoted(Max(OwnTri(w, s, visible), rev), w.defs[s], visible, w.mv);
    assert Calc(w, s).written == WrittenD(w, s, visible, rev);
  }

  lemma ReadableWithin(w: World, a: State, b: State, busy: set<nat>, s: nat)
    requires Readable(w, a, busy, w.rank(s), None) && SameSizes(w.defs, b)
    requires s in b.valid && s < |w.defs| && HasTri(w.defs[s]) && b.curr[s].tri == YES
    ensures Readable(w, b, busy, w.rank(s), Some(s))
  {
  }

  /** A choice is no member of itself, so looking at its members leaves its conditions alone. */
  lemma OwnConditionsStay(w: World, a: State, b: State, s: nat)
    requires s < |w.defs| == |w.input| && ChoiceBelow(w, s) && s in a.valid
    requires Grows(w.defs, a, b, {s}, MembersOf(w.defs, s))
    ensures SameConditions(w.defs, a, b, s)
  {
    assert ConditionsFixed(w.defs, a, b, s);
  }

  lemma AllMembersOpen(w: World, t: State, busy: set<nat>, s: nat)
    requires Sound(w, t, busy) && s in busy && s < |w.defs| && ChoiceBelow(w, s)
    ensures MembersOpen(w, t, busy, s)
  {
  }

  lemma MvGrows(defs: seq<Def>, a: State, t: State, own: set<nat>, looked: set<nat>, mv: Tri)
    requires Grows(defs, a, t, own, looked)
    ensures Grows(defs, a, t.(mv := mv), own, looked)
  {
    forall k | 0 <= k < |defs| && k !in looked && ConditionsFixed(defs, a, t.(mv := mv), k)
      ensures SameConditions(defs, a, t.(mv := mv), k)
    {
      assert ConditionsFixed(defs, a, t, k);
    }
  }

  lemma MvKeeps(w: World, t: State, s: nat, mv: Tri)
    requires SameSizes(w.defs, t) && WellFormed(w) && s < |w.defs| && Settled(w, t, s) && MarkRight(w, t, s)
    ensures SameSizes(w.defs, t.(mv := mv)) && Settled(w, t.(mv := mv), s) && MarkRight(w, t.(mv := mv), s)
    ensures forall n :: MembersLooked(w, t, s, n) ==> MembersLooked(w, t.(mv := mv), s, n)
  {
  }

  lemma UnknownIsReady(w: World, t: State, s: nat)
    requires SameSizes(w.defs, t) && WellFormed(w) && s < |w.defs| && w.defs[s].typ == Unknown && MarkRight(w, t, s)
    ensures MembersReady(w, t, s)
  {
  }

  lemma PromptsValidGrows(d: Def, v: set<nat>, v': set<nat>)
    requires PromptsValid(d, v) && v <= v'
    ensures PromptsValid(d, v')
  {
  }

  lemma OthersValidGrows(d: Def, v: set<nat>, v': set<nat>)
    requires OthersValid(d, v) && v <= v'
    ensures OthersValid(d, v')
  {
  }

  lemma ConditionsValidGrows(d: Def, v: set<nat>, v': set<nat>)
    requires ConditionsValid(d, v) && v <= v'
    ensures ConditionsValid(d, v')
  {
    PromptsValidGrows(d, v, v');
    if d.choiceOf.None? { OthersValidGrows(d, v, v'); }
  }

  lemma OthersKnown(defs: seq<Def>, s: nat)
    requires KnownDefs(defs) && s < |defs|
    ensures KnownOpt(defs[s].dirDep, |defs|) && KnownOpt(defs[s].revDep, |defs|)
  {
    assert defs[s] in defs;
  }

  lemma KeepsConditions(defs: seq<Def>, a: State, b: State, s: nat)
    requires Grows(defs, a, b, {}, {}) && s in a.valid && s < |defs| && defs[s].choiceOf.None?
    ensures SameConditions(defs, a, b, s) && s in b.valid
  {
    assert ConditionsFixed(defs, a, b, s);
  }

  lemma StoreGrows(defs: seq<Def>, a: State, t: State, s: nat, x: Tri, y: Tri, z: Tri)
    requires SameSizes(defs, t) && s < |defs| && Grows(defs, a, t, {}, {s})
    requires defs[s].choiceOf.Some? ==> y == NO && z == NO
    ensures Grows(defs, a, WithConditions(t, s, x, y, z), {}, {s})
  {
    hide Open;
    var t' := WithConditions(t, s, x, y, z);
    assert SameSizes(defs, t');
    forall k | 0 <= k < |defs| && k != s && ConditionsFixed(defs, a, t', k)
      ensures SameConditions(defs, a, t', k)
    {
      assert ConditionsFixed(defs, a, t, k);
    }
  }

  lemma StoreSound(w: World, t: State, busy: set<nat>, s: nat, x: Tri, y: Tri, z: Tri)
    requires Sound(w, t, busy) && s < |w.defs|
    requires w.defs[s].choiceOf.Some? ==> y == NO && z == NO
    requires s in t.valid && s !in busy ==> x == t.visible[s] && y == t.dir[s] && z == t.rev[s]
    requires MemberMayShow(w, t, busy, s, x)
    ensures Sound(w, WithConditions(t, s, x, y, z), busy)
  {
    hide MemberVisible;
    var t' := WithConditions(t, s, x, y, z);
    forall k | k in t'.valid && k !in busy
      ensures Settled(w, t', k) && MembersReady(w, t', k)
    {
      assert Settled(w, t, k) && MembersReady(w, t, k);
      if w.defs[k].isChoice && w.defs[k].typ != Unknown && Calc(w, k).value.tri == YES {
        forall m | m in w.defs[k].members && m < |w.defs| && w.defs[m].choiceOf == Some(k)
          ensures MemberReady(w, t', m, k)
        {
          assert MemberReady(w, t, m, k);
        }
      }
    }
  }

  class Table {
    const defs: seq<Def>
    const modules: nat
    var input: seq<Input>
    var valid: set<nat>
    var curr: seq<Value>
    var visible: seq<Tri>
    var dir: seq<Tri>
    var rev: seq<Tri>
    var written: set<nat>
    var modulesVal: Tri

    ghost function Now(): State
      reads this
    {
      State(input, valid, curr, visible, dir, rev, written, modulesVal)
    }

    ghost predicate Shape()
      reads this
    {
      KnownDefs(defs) && modules < |defs| && SameSizes(defs, Now())
    }

    /** The world w is about this table. */
    ghost predicate About(w: World) {
      w.defs == defs && w.modules == modules
    }

    /** Everything needed to read an expression at rank bound. */
    ghost predicate Reading(w: World, busy: set<nat>, bound: nat, on: Option<nat>)
      reads this
    {
      About(w) && Sound(w, Now(), busy) && Readable(w, Now(), busy, bound, on)
    }

    ghost predicate After(a: State, own: set<nat>, looked: set<nat>)
      reads this
    {
      && Shape() && SameSizes(defs, a)
      && a.valid <= valid && Open(|defs|, valid) <= Open(|defs|, a.valid)
      && Grows(defs, a, Now(), own, looked)
    }

    lemma ThenAfter(a: State, b: State, own: set<nat>, looked: set<nat>)
      requires a.valid <= b.valid && Open(|defs|, b.valid) <= Open(|defs|, a.valid)
      requires Grows(defs, a, b, own, looked) && After(b, own, looked)
      ensures After(a, own, looked)
    {
      hide Grows;
      GrowsTransitive(defs, a, b, Now(), own, looked);
    }

    lemma StillReadingLooked(w: World, a: State, busy: set<nat>, bound: nat, on: Option<nat>, looked: set<nat>)
      requires After(a, {}, looked) && About(w)
      requires Readable(w, a, busy, bound, on) && Sound(w, Now(), busy)
      ensures Reading(w, busy, bound, on)
    {
      hide Acyclic, ModulesAgree, Settled;
    }

    lemma StillReading(w: World, a: State, busy: set<nat>, bound: nat, on: Option<nat>)
      requires After(a, {}, {}) && About(w)
      requires Readable(w, a, busy, bound, on) && Sound(w, Now(), busy)
      ensures Reading(w, busy, bound, on)
    {
      hide Grows, Acyclic, ModulesAgree, Settled;
      GrowsKeepsReadable(w, a, Now(), busy, bound, on);
    }

    /** expr_calc_value. With sound set, the result is what the definition says for a reader at
        rank bound that may be inside the calculation of the choice `on`. */
    method ExprValue(e: Expr, ghost w: World, ghost busy: set<nat>, ghost sound: bool, ghost bound: nat, ghost on: Option<nat>)
      returns (r: Tri)
      requires Shape() && Known(e, |defs|)
      requires sound ==> Reading(w, busy, bound, on) && Below(w, e, bound, on)
      modifies this
      ensures After(old(Now()), {}, {}) && AllValid(e, valid)
      ensures sound ==> Right(w, old(Now()), Now(), busy, bound) && r == Tris(w, e, bound, on)
      decreases Open(|defs|, valid), 1, Size(e)
    {
      hide Grows, Sound, KnownDefs, AllValid, Contains;
      match e
      case Symbol(s) =>
        r := SymbolTri(s, w, busy, sound, bound, on);
        AllValidParts(e, valid);
      case Not(x) =>
        var a := ExprValue(x, w, busy, sound, bound, on);
        AllValidParts(e, valid);
        r := Negate(a);
      case Bin(op, x, y) =>
        var a := ExprValue(x, w, busy, sound, bound, on);
        ghost var middle := Now();
        if sound { StillReading(w, old(Now()), busy, bound, on); }
        var b := ExprValue(y, w, busy, sound, bound, on);
        ThenAfter(old(Now()), middle, {}, {});
        AllValidGrows(x, middle.valid, valid);
        AllValidParts(e, valid);
        r := Apply(op, a, b);
      case Equal(x, y) =>
        var b := SameText(x, y, w, busy, sound, bound, on);
        AllValidParts(e, valid);
        r := OfBool(b);
      case Unequal(x, y) =>
        var b := SameText(x, y, w, busy, sound, bound, on);
        AllValidParts(e, valid);
        r := OfBool(!b);
    }

    /** sym_calc_value on the symbol, then its curr.tri. */
    method SymbolTri(s: Sym, ghost w: World, ghost busy: set<nat>, ghost sound: bool, ghost bound: nat, ghost on: Option<nat>)
      returns (r: Tri)
      requires Shape() && KnownSym(s, |defs|)
      requires sound ==> Reading(w, busy, bound, on) && BelowSym(w, s, bound, on)
      modifies this
      ensures After(old(Now()), {}, {})
      ensures s.Var? ==> s.id in valid && r == curr[s.id].tri
      ensures sound ==> Right(w, old(Now()), Now(), busy, bound) && r == SymTri(w, s, bound, on)
      decreases Open(|defs|, valid), 1, 0, 0
    {
      hide Grows, Sound, KnownDefs, ValuesRight, PromptsValid, ModulesAgree;
      GrowsReflexive(defs, Now());
      match s
      case Yes => r := YES;
      case Mod => r := MOD;
      case No => r := NO;
      case Lit(_) => r := NO;
      case Var(id, _) =>
        CalcValue(id, w, busy, sound);
        r := curr[id].tri;
        if sound {
          StillReading(w, old(Now()), busy, bound, on);
          ReadsRight(w, Now(), busy, bound, on, s);
        }
    }

    /** The comparison of two symbols by their strings: both are calculated first. */
    method SameText(x: Sym, y: Sym, ghost w: World, ghost busy: set<nat>, ghost sound: bool, ghost bound: nat, ghost on: Option<nat>)
      returns (b: bool)
      requires Shape() && KnownSym(x, |defs|) && KnownSym(y, |defs|)
      requires sound ==> Reading(w, busy, bound, on) && BelowText(w, x, bound, on) && BelowText(w, y, bound, on)
      modifies this
      ensures After(old(Now()), {}, {})
      ensures (x.Var? ==> x.id in valid) && (y.Var? ==> y.id in valid)
      ensures sound ==> Right(w, old(Now()), Now(), busy, bound) && b == (SymText(w, x, bound, on) == SymText(w, y, bound, on))
      decreases Open(|defs|, valid), 1, 0, 1
    {
      hide Grows, Sound, KnownDefs;
      var u := SymbolTri(x, w, busy, sound, bound, on);
      ghost var t1 := Now();
      if sound { StillReading(w, old(Now()), busy, bound, on); }
      var v := SymbolTri(y, w, busy, sound, bound, on);
      ghost var t2 := Now();
      ThenAfter(old(Now()), t1, {}, {});
      if sound { StillReading(w, old(Now()), busy, bound, on); }
      var p := StringValue(x, w, busy, sound, bound, on);
      ghost var t3 := Now();
      ThenAfter(old(Now()), t2, {}, {});
      if sound { StillReading(w, old(Now()), busy, bound, on); }
      var q := StringValue(y, w, busy, sound, bound, on);
      ThenAfter(old(Now()), t3, {}, {});
      b := p == q;
    }

    /** sym_get_string_value of a calculated symbol. */
    method StringValue(s: Sym, ghost w: World, ghost busy: set<nat>, ghost sound: bool, ghost bound: nat, ghost on: Option<nat>)
      returns (r: string)
      requires Shape() && KnownSym(s, |defs|) && (s.Var? ==> s.id in valid)
      requires sound ==> Reading(w, busy, bound, on) && BelowText(w, s, bound, on)
      modifies this
      ensures After(old(Now()), {}, {})
      ensures sound ==> Right(w, old(Now()), Now(), busy, bound) && r == SymText(w, s, bound, on)
      decreases Open(|defs|, valid), 1, 0, 0
    {
      hide Sound, KnownDefs, ValuesRight, PromptsValid, ModulesAgree;
      GrowsReflexive(defs, Now());
      match s
      case Lit(text) => r := text;
      case Var(id, _) =>
        if sound { ReadsRight(w, Now(), busy, bound, on, s); }
        if !IsTri(s) { return curr[id].str; }
        var t := curr[id].tri;
        if t == MOD {
          if sound && on != Some(id) { CalcIsTyped(w, id); }
          CalcValue(modules, w, busy, sound);
          if sound { ModulesRight(w, Now(), busy); }
          r := if curr[modules].tri == NO then "n" else "m";
        } else {
          r := Name(t);
        }
      case _ => r := if s.Yes? then "y" else if s.Mod? then "m" else "n";
    }

    /** expr_calc_value where null means y. */
    method ConditionValue(e: Option<Expr>, ghost w: World, ghost busy: set<nat>, ghost sound: bool, ghost bound: nat, ghost on: Option<nat>)
      returns (r: Tri)
      requires Shape() && KnownOpt(e, |defs|)
      requires sound ==> Reading(w, busy, bound, on) && BelowOpt(w, e, bound, on)
      modifies this
      ensures After(old(Now()), {}, {}) && (e.Some? ==> AllValid(e.value, valid))
      ensures sound ==> Right(w, old(Now()), Now(), busy, bound) && r == TrisOpt(w, e, bound, on)
      decreases Open(|defs|, valid), 2
    {
      hide Grows, Sound, KnownDefs, AllValid;
      if e.None? {
        GrowsReflexive(defs, Now());
        r := YES;
      } else {
        r := ExprValue(e.value, w, busy, sound, bound, on);
      }
    }

    /** The strongest of a symbol's prompt conditions. */
    method StrongestPrompt(s: nat, ghost w: World, ghost busy: set<nat>, ghost sound: bool, ghost bound: nat, ghost on: Option<nat>)
      returns (t: Tri)
      requires Shape() && s < |defs|
      requires sound ==> Reading(w, busy, bound, on) && PromptsBelow(w, defs[s], bound, on)
      modifies this
      ensures After(old(Now()), {}, {}) && PromptsValid(defs[s], valid)
      ensures sound ==> Right(w, old(Now()), Now(), busy, bound) && t == Strongest(w, defs[s].prompts, bound, on)
      decreases Open(|defs|, valid), 3
    {
      hide Grows, Sound, SameSizes, Readable, NewBelow, Open, PromptsDone, PromptsValid, PromptsBelow;
      hide AllValid, Below, BelowOpt, Known, KnownOpt, KnownDefs, Strongest, TrisOpt;
      PromptsNoneDone(defs[s], valid);
      if sound { RightReflexive(w, Now(), busy, bound); }
      t := NO;
      GrowsReflexive(defs, Now());
      var d := defs[s];
      StrongestNone(w, bound, on);
      var i := 0;
      while i < |d.prompts|
        invariant 0 <= i <= |d.prompts|
        invariant After(old(Now()), {}, {}) && PromptsDone(d, i, valid)
        invariant sound ==> Right(w, old(Now()), Now(), busy, bound) && t == Strongest(w, d.prompts[..i], bound, on)
      {
        ghost var before := Now();
        PromptKnown(defs, s, i);
        if sound { StillReading(w, old(Now()), busy, bound, on); }
        if sound { PromptBelow(w, d, i, bound, on); }
        var v := ConditionValue(d.prompts[i], w, busy, sound, bound, on);
        ThenAfter(old(Now()), before, {}, {});
        PromptsDoneGrows(d, i, before.valid, valid);
        PromptsDoneStep(d, i, valid);
        StrongestStep(w, d.prompts, i, bound, on);
        if sound { RightTransitive(w, old(Now()), before, Now(), busy, bound); }
        t := Max(t, v);
        i := i + 1;
      }
      PromptsAllDone(d, valid);
      assert d.prompts[..i] == d.prompts;
    }

    /** sym_calc_visibility. A choice looks at its members this way while it is calculated. */
    method CalcVisibility(s: nat, ghost w: World, ghost busy: set<nat>, ghost sound: bool, ghost bound: nat, ghost on: Option<nat>)
      requires Shape() && s < |defs| && (s in valid || defs[s].choiceOf.Some?)
      requires sound ==> Reading(w, busy, bound, on) && PromptsBelow(w, defs[s], bound, on)
      requires sound ==> MayStore(w, Now(), busy, s, bound, on) && OtherConditionsBelow(w, s, bound, on)
      modifies this
      ensures After(old(Now()), {}, {s}) && ConditionsValid(defs[s], valid)
      ensures sound ==> Right(w, old(Now()), Now(), busy, bound) && Looked(w, Now(), s, bound, on)
      decreases Open(|defs|, valid), 6
    {
      hide Grows, Sound, Readable, NewBelow, Open, PromptsValid, OthersValid, PromptsBelow, Strongest, Known, Below, KnownDefs;
      var t := StrongestPrompt(s, w, busy, sound, bound, on);
      ghost var before := Now();
      var v := VisibleFrom(t, defs[s], modulesVal);
      if sound {
        MvOf(w, before, busy);
        VisibleOf(w, s, bound, on);
        StoreStep(w, old(Now()), before, busy, bound, on, s, v, dir[s], rev[s]);
      }
      GrowsWiden(defs, old(Now()), before, {}, {}, {}, {s});
      StoreGrows(defs, old(Now()), before, s, v, dir[s], rev[s]);
      visible := visible[s := v];
      assert Now() == WithConditions(before, s, v, before.dir[s], before.rev[s]);
      if defs[s].choiceOf.None? {
        ghost var middle := Now();
        if sound { StillReadingLooked(w, old(Now()), busy, bound, on, {s}); }
        CalcOther(s, w, busy, sound);
        ThenAfter(old(Now()), middle, {}, {s});
        PromptsValidGrows(defs[s], middle.valid, valid);
        if sound { RightTransitive(w, old(Now()), middle, Now(), busy, bound); }
      }
    }

    /** The part of sym_calc_visibility that choice values leave out: dir_dep and rev_dep. */
    method CalcOther(s: nat, ghost w: World, ghost busy: set<nat>, ghost sound: bool)
      requires Shape() && s < |defs| && s in valid && defs[s].choiceOf.None?
      requires sound ==> Reading(w, busy, w.rank(s), None)
      requires sound ==> MayStore(w, Now(), busy, s, w.rank(s), None) && OtherConditionsBelow(w, s, w.rank(s), None)
      requires sound ==> visible[s] == VisibleD(w, defs[s], w.rank(s), None)
      modifies this
      ensures After(old(Now()), {}, {s}) && OthersValid(defs[s], valid)
      ensures sound ==> Right(w, old(Now()), Now(), busy, w.rank(s)) && Looked(w, Now(), s, w.rank(s), None)
      decreases Open(|defs|, valid), 5
    {
      hide Grows, Sound, Readable, NewBelow, Open, Known, Below, KnownDefs, AllValid;
      OthersKnown(defs, s);
      ghost var bound := w.rank(s);
      ghost var t0 := Now();
      var t := ConditionValue(defs[s].dirDep, w, busy, sound, bound, None);
      ghost var t1 := Now();
      var direct := Promote(t);
      KeepsConditions(defs, t0, t1, s);
      if sound { StoreStep(w, t0, t1, busy, bound, None, s, visible[s], direct, rev[s]); }
      GrowsWiden(defs, t0, t1, {}, {}, {}, {s});
      StoreGrows(defs, t0, t1, s, visible[s], direct, rev[s]);
      dir := dir[s := direct];
      ghost var t2 := Now();
      assert t2 == WithConditions(t1, s, t1.visible[s], direct, t1.rev[s]);
      if sound { StillReadingLooked(w, t0, busy, bound, None, {s}); }
      CalcReverse(s, w, busy, sound);
      ThenAfter(t0, t2, {}, {s});
      if defs[s].dirDep.Some? { AllValidGrows(defs[s].dirDep.value, t1.valid, valid); }
      if sound { RightTransitive(w, t0, t2, Now(), busy, bound); }
    }

    /** rev_dep, where m is y for a symbol that cannot be m. */
    method CalcReverse(s: nat, ghost w: World, ghost busy: set<nat>, ghost sound: bool)
      requires Shape() && s < |defs| && s in valid && defs[s].choiceOf.None?
      requires sound ==> Reading(w, busy, w.rank(s), None)
      requires sound ==> MayStore(w, Now(), busy, s, w.rank(s), None) && OtherConditionsBelow(w, s, w.rank(s), None)
      modifies this
      ensures After(old(Now()), {}, {s}) && (defs[s].revDep.Some? ==> AllValid(defs[s].revDep.value, valid))
      ensures visible[s] == old(visible[s]) && dir[s] == old(dir[s])
      ensures sound ==> Right(w, old(Now()), Now(), busy, w.rank(s)) && rev[s] == RevD(w, defs[s], visible[s], w.rank(s))
      decreases Open(|defs|, valid), 4
    {
      hide Grows, Sound, Readable, NewBelow, Open, Known, Below, KnownDefs, AllValid;
      OthersKnown(defs, s);
      ghost var bound := w.rank(s);
      ghost var t0 := Now();
      GrowsReflexive(defs, t0);
      if sound { RightReflexive(w, t0, busy, bound); }
      var r := NO;
      if defs[s].revDep.Some? {
        r := ExprValue(defs[s].revDep.value, w, busy, sound, bound, None);
        KeepsConditions(defs, t0, Now(), s);
        r := Promoted(r, defs[s], visible[s], modulesVal);
      }
      ghost var t1 := Now();
      if sound {
        MvOf(w, t1, busy);
        StoreStep(w, t0, t1, busy, bound, None, s, visible[s], dir[s], r);
      }
      GrowsWiden(defs, t0, t1, {}, {}, {}, {s});
      StoreGrows(defs, t0, t1, s, visible[s], dir[s], r);
      rev := rev[s := r];
      assert Now() == WithConditions(t1, s, t1.visible[s], t1.dir[s], r);
    }

    /** sym_get_default_prop: the first default with a condition other than n, and that condition. */
    method FindDefault(s: nat, ghost w: World, ghost busy: set<nat>, ghost sound: bool, ghost bound: nat)
      returns (i: Option<nat>, cond: Tri)
      requires Shape() && s < |defs|
      requires sound ==> Reading(w, busy, bound, None) && DefaultsBelow(w, defs[s], bound, None)
      modifies this
      ensures After(old(Now()), {}, {})
      ensures i.Some? ==> i.value < |defs[s].defaults|
      ensures sound ==> Right(w, old(Now()), Now(), busy, bound) && i == ActiveDefault(w, defs[s], 0, bound, None)
      ensures sound && i.Some? ==> cond == TrisOpt(w, defs[s].defaults[i.value].cond, bound, None)
      decreases Open(|defs|, valid), 3
    {
      hide Grows, Sound, SameSizes, Readable, NewBelow, Open, Known, Below, KnownDefs, DefaultsBelow, TrisOpt;
      ghost var t0 := Now();
      GrowsReflexive(defs, t0);
      if sound { RightReflexive(w, t0, busy, bound); }
      var d := defs[s];
      var n := 0;
      while n < |d.defaults|
        invariant 0 <= n <= |d.defaults|
        invariant After(t0, {}, {})
        invariant sound ==> Right(w, t0, Now(), busy, bound)
        invariant sound ==> ActiveDefault(w, d, 0, bound, None) == ActiveDefault(w, d, n, bound, None)
      {
        ghost var before := Now();
        DefaultKnown(defs, s, n);
        if sound {
          StillReading(w, t0, busy, bound, None);
          DefaultBelow(w, d, n, bound, None);
        }
        cond := ConditionValue(d.defaults[n].cond, w, busy, sound, bound, None);
        ThenAfter(t0, before, {}, {});
        if sound { RightTransitive(w, t0, before, Now(), busy, bound); }
        if cond != NO { return Some(n), cond; }
        n := n + 1;
      }
      return None, NO;
    }

    /** The value of the default found, for a symbol that uses defaults. */
    method DefaultTriValue(s: nat, ghost w: World, ghost busy: set<nat>, ghost sound: bool)
      returns (t: Tri, found: bool)
      requires Shape() && s < |defs| && !defs[s].isChoice
      requires sound ==> Reading(w, busy, w.rank(s), None) && DefaultsBelow(w, defs[s], w.rank(s), None)
      modifies this
      ensures After(old(Now()), {}, {})
      ensures sound ==> Right(w, old(Now()), Now(), busy, w.rank(s)) && t == DefaultTri(w, defs[s], w.rank(s))
      ensures sound ==> found == ActiveDefault(w, defs[s], 0, w.rank(s), None).Some?
      decreases Open(|defs|, valid), 4
    {
      hide Grows, Sound, SameSizes, Readable, NewBelow, Open, Known, Below, KnownDefs, DefaultsBelow, TrisOpt, Tris, ActiveDefault;
      ghost var t0, bound := Now(), w.rank(s);
      var i, cond := FindDefault(s, w, busy, sound, bound);
      if i.None? { return NO, false; }
      ghost var t1 := Now();
      DefaultKnown(defs, s, i.value);
      if sound {
        StillReading(w, t0, busy, bound, None);
        DefaultBelow(w, defs[s], i.value, bound, None);
      }
      var v := ExprValue(defs[s].defaults[i.value].value, w, busy, sound, bound, None);
      ThenAfter(t0, t1, {}, {});
      if sound { RightTransitive(w, t0, t1, Now(), busy, bound); }
      return Min(v, cond), true;
    }

    /** The boolean and tristate case of sym_calc_value; mark says whether to set SYMBOL_WRITE. */
    method CalcTri(s: nat, ghost w: World, ghost busy: set<nat>, ghost sound: bool)
      returns (t: Tri, mark: bool)
      requires Shape() && s < |defs| && s in valid && HasTri(defs[s])
      requires sound ==> Reading(w, busy, w.rank(s), None) && DefaultsReadable(w, s)
      requires sound ==> input[s] == w.input[s] && ChoiceRight(w, Now(), s)
      modifies this
      ensures After(old(Now()), {}, {})
      ensures sound ==> Right(w, old(Now()), Now(), busy, w.rank(s)) && t == TriD(w, s, old(visible[s]), old(rev[s]))
      ensures sound && defs[s].choiceOf.None? ==> mark == WrittenD(w, s, old(visible[s]), old(rev[s]))
      decreases Open(|defs|, valid), 5
    {
      hide Grows, Sound, Readable, NewBelow, Open, Known, Below, KnownDefs, DefaultsBelow, TrisOpt, Tris, ActiveDefault, DefaultTri;
      var d := defs[s];
      ghost var t0 := Now();
      GrowsReflexive(defs, t0);
      if sound { RightReflexive(w, t0, busy, w.rank(s)); MvOf(w, t0, busy); }
      var seen, selected := visible[s], rev[s];
      if d.choiceOf.Some? && seen == YES {
        ChoiceKnown(defs, s);
        return Promoted(OfBool(curr[d.choiceOf.value].pick == Some(s)), d, seen, modulesVal), false;
      }
      mark := seen != NO || selected != NO;
      if seen != NO && input[s].given {
        t := Min(input[s].tri, seen);
      } else if d.isChoice {
        t := NO;
      } else {
        var found;
        t, found := DefaultTriValue(s, w, busy, sound);
        mark := mark || found;
      }
      if sound { MvOf(w, Now(), busy); }
      t := Promoted(Max(t, selected), d, seen, modulesVal);
    }

    /** The string, int and hex case of sym_calc_value. */
    method CalcText(s: nat, ghost w: World, ghost busy: set<nat>, ghost sound: bool)
      returns (text: string, mark: bool)
      requires Shape() && s < |defs| && s in valid && HasText(defs[s])
      requires sound ==> Reading(w, busy, w.rank(s), None) && DefaultsReadable(w, s)
      requires sound ==> input[s] == w.input[s] && !defs[s].isChoice
      modifies this
      ensures After(old(Now()), {}, {})
      ensures sound ==> Right(w, old(Now()), Now(), busy, w.rank(s)) && text == TextD(w, s, old(visible[s]))
      ensures sound && defs[s].choiceOf.None? ==> mark == WrittenD(w, s, old(visible[s]), old(rev[s]))
      decreases Open(|defs|, valid), 5
    {
      hide Grows, Sound, Readable, NewBelow, Open, KnownDefs, DefaultsBelow, TrisOpt, Tris, ActiveDefault, BelowOpt;
      var d := defs[s];
      ghost var t0, bound := Now(), w.rank(s);
      GrowsReflexive(defs, t0);
      if sound { RightReflexive(w, t0, busy, bound); }
      mark := visible[s] != NO;
      if mark && input[s].given { return input[s].str, true; }
      text := "";
      var i, cond := FindDefault(s, w, busy, sound, bound);
      if i.Some? && d.defaults[i.value].value.Symbol? {
        var source := d.defaults[i.value].value.sym;
        ghost var t1 := Now();
        DefaultKnown(defs, s, i.value);
        if sound {
          StillReading(w, t0, busy, bound, None);
          DefaultBelow(w, d, i.value, bound, None);
          assert Below(w, d.defaults[i.value].value, bound, None);
        }
        mark := true;
        text := RawValue(source, w, busy, sound, bound);
        ThenAfter(t0, t1, {}, {});
        if sound { RightTransitive(w, t0, t1, Now(), busy, bound); }
      }
    }

    /** sym_calc_value on the symbol, then its curr.val. */
    method RawValue(s: Sym, ghost w: World, ghost busy: set<nat>, ghost sound: bool, ghost bound: nat)
      returns (r: string)
      requires Shape() && KnownSym(s, |defs|)
      requires sound ==> Reading(w, busy, bound, None) && BelowSym(w, s, bound, None)
      modifies this
      ensures After(old(Now()), {}, {})
      ensures sound ==> Right(w, old(Now()), Now(), busy, bound) && r == SymRaw(w, s, bound, None)
      decreases Open(|defs|, valid), 1, 1
    {
      hide Grows, Sound, KnownDefs;
      var t := SymbolTri(s, w, busy, sound, bound, None);
      match s
      case Lit(text) => r := text;
      case Var(id, _) =>
        r := curr[id].str;
        if sound {
          StillReading(w, old(Now()), busy, bound, None);
          ReadsRightRaw(w, Now(), busy, bound, s);
        }
      case _ => r := Name(t);
    }

    /** sym_choice_default, once the members have been looked at. */
    method ChoiceDefault(c: nat, ghost w: World, ghost busy: set<nat>, ghost sound: bool)
      returns (r: Option<nat>)
      requires Shape() && c < |defs| && c in valid
      requires sound ==> Reading(w, busy, w.rank(c), Some(c)) && c in busy && MembersLooked(w, Now(), c, |defs[c].members|)
      requires sound ==> defs[c].isChoice && defs[c].typ != Unknown
      modifies this
      ensures After(old(Now()), {}, {})
      ensures sound ==> Right(w, old(Now()), Now(), busy, w.rank(c)) && r == ChoiceDefaultD(w, c, 0, w.rank(c))
      ensures sound ==> MembersLooked(w, Now(), c, |defs[c].members|)
      ensures r.Some? ==> r.value < |defs|
      decreases Open(|defs|, valid), 4
    {
      hide Grows, Sound, SameSizes, Readable, NewBelow, Open, Known, Below, KnownDefs, TrisOpt, Tris, MembersLooked, MemberVisible, DefaultsBelow;
      var d := defs[c];
      ghost var t0, bound := Now(), w.rank(c);
      GrowsReflexive(defs, t0);
      if sound {
        RightReflexive(w, t0, busy, bound);
        ChoiceFacts(w, t0, busy, c);
      }
      var i := 0;
      while i < |d.defaults|
        invariant 0 <= i <= |d.defaults|
        invariant After(t0, {}, {})
        invariant sound ==> Right(w, t0, Now(), busy, bound) && MembersLooked(w, Now(), c, |d.members|)
        invariant sound ==> ChoiceDefaultD(w, c, 0, bound) == ChoiceDefaultD(w, c, i, bound)
      {
        ghost var before := Now();
        DefaultKnown(defs, c, i);
        if sound {
          StillReading(w, t0, busy, bound, Some(c));
          DefaultBelow(w, d, i, bound, Some(c));
        }
        var cond := ConditionValue(d.defaults[i].cond, w, busy, sound, bound, Some(c));
        ThenAfter(t0, before, {}, {});
        var named := NamedSymbol(d.defaults[i].value);
        if sound {
          RightTransitive(w, t0, before, Now(), busy, bound);
          MembersStayLooked(w, before, Now(), busy, c);
          NamedLooked(w, Now(), c, i);
        }
        SizesOf(defs, Now());
        NamedKnown(d.defaults[i].value, |defs|);
        if cond != NO && named.Some? && visible[named.value] != NO { return named; }
        i := i + 1;
      }
      r := FirstVisibleMember(c, w, sound);
    }

    /** The loop over the choice values that ends sym_choice_default. */
    method FirstVisibleMember(c: nat, ghost w: World, ghost sound: bool) returns (r: Option<nat>)
      requires Shape() && c < |defs|
      requires sound ==> About(w) && MembersLooked(w, Now(), c, |defs[c].members|)
      ensures sound ==> r == FirstVisible(w, defs[c].members, 0, w.rank(c), c)
      ensures r.Some? ==> r.value < |defs|
    {
      hide KnownDefs, MemberVisible;
      var members := defs[c].members;
      var i := 0;
      while i < |members|
        invariant 0 <= i <= |members|
        invariant sound ==> FirstVisible(w, members, 0, w.rank(c), c) == FirstVisible(w, members, i, w.rank(c), c)
      {
        MembersKnown(defs, c, i);
        if visible[members[i]] != NO { return Some(members[i]); }
        i := i + 1;
      }
      return None;
    }

    /** The first half of sym_calc_choice: look at all members; the choice keeps its user mark only
        if every visible member has one. */
    method LookAtMembers(c: nat, ghost w: World, ghost busy: set<nat>, ghost sound: bool)
      requires Shape() && c < |defs| && c in valid && defs[c].isChoice && defs[c].typ != Unknown
      requires sound ==> Reading(w, busy, w.rank(c), Some(c)) && c in busy && MembersOpen(w, Now(), busy, c)
      requires sound ==> WellFormed(w) && input[c] == w.input[c]
      modifies this
      ensures After(old(Now()), {c}, MembersOf(defs, c))
      ensures curr[c] == old(curr[c])
      ensures defs[c].choiceOf.None? ==> (c in written <==> c in old(written))
      ensures sound ==> Right(w, old(Now()), Now(), busy, w.rank(c)) && MembersLooked(w, Now(), c, |defs[c].members|)
      ensures sound ==> MarkKept(w, c, input[c].given, |defs[c].members|)
      decreases Open(|defs|, valid), 7
    {
      hide Grows, Sound, Readable, NewBelow, Open, KnownDefs, MembersLooked, MemberVisible, ConditionsValid, PromptsBelow, Below, MarkKept;
      var members := defs[c].members;
      ghost var t0, bound := Now(), w.rank(c);
      ghost var looked := MembersOf(defs, c);
      GrowsReflexive(defs, t0);
      GrowsWiden(defs, t0, t0, {}, {}, {}, looked);
      if sound { RightReflexive(w, t0, busy, bound); NoneLooked(w, t0, c); }
      var given := input[c].given;
      if sound { MarkKeptStart(w, c, given); }
      var i := 0;
      while i < |members|
        invariant 0 <= i <= |members|
        invariant After(t0, {}, looked)
        invariant sound ==> Right(w, t0, Now(), busy, bound) && MembersLooked(w, Now(), c, i)
        invariant !input[c].given ==> !given
        invariant sound ==> MarkKept(w, c, given, i)
      {
        ghost var before := Now();
        var m := members[i];
        MembersKnown(defs, c, i);
        if sound {
          StillReadingLooked(w, t0, busy, bound, Some(c), looked);
          MembersRankAbove(w, before, busy, c, i);
          MemberMayStore(w, t0, before, busy, c, i);
        }
        CalcVisibility(m, w, busy, sound, bound, Some(c));
        GrowsWiden(defs, before, Now(), {}, {m}, {}, looked);
        ThenAfter(t0, before, {}, looked);
        if sound {
          RightTransitive(w, t0, before, Now(), busy, bound);
          OneMoreLooked(w, before, Now(), busy, c, i);
          MarkKeptStep(w, Now(), busy, c, given, i);
        }
        KeepsOwn(defs, before, Now(), c, looked);
        if visible[m] != NO { given := given && input[m].given; }
        i := i + 1;
      }
      ghost var t1 := Now();
      KeepsOwn(defs, t0, t1, c, looked);
      UnmarkGrows(defs, t0, t1, c, looked, given);
      if sound { UnmarkRight(w, t0, t1, busy, bound, c, given); }
      input := input[c := input[c].(given := given)];
      assert Now() == t1.(input := t1.input[c := t1.input[c].(given := given)]);
      if sound { UnmarkLooked(w, t1, Now(), c); }
    }

    /** sym_calc_choice. Without a selectable member the choice falls back to n. */
    method CalcChoice(c: nat, ghost w: World, ghost busy: set<nat>, ghost sound: bool)
      returns (pick: Option<nat>)
      requires Shape() && c < |defs| && c in valid && defs[c].isChoice && defs[c].typ != Unknown
      requires sound ==> Reading(w, busy, w.rank(c), Some(c)) && c in busy && MembersOpen(w, Now(), busy, c)
      requires sound ==> WellFormed(w) && input[c] == w.input[c]
      modifies this
      ensures After(old(Now()), {c}, MembersOf(defs, c))
      ensures curr[c] == if pick.None? then old(curr[c]).(tri := NO) else old(curr[c])
      ensures defs[c].choiceOf.None? ==> (c in written <==> c in old(written))
      ensures sound ==> Right(w, old(Now()), Now(), busy, w.rank(c)) && pick == PickD(w, c, w.rank(c))
      ensures sound ==> MembersLooked(w, Now(), c, |defs[c].members|)
      ensures sound ==> MarkKept(w, c, input[c].given, |defs[c].members|)
      decreases Open(|defs|, valid), 8
    {
      hide MarkKept, Grows, Sound, NewBelow, Open, KnownDefs, MembersLooked, MemberVisible, FirstVisible;
      ghost var t0, looked := Now(), MembersOf(defs, c);
      LookAtMembers(c, w, busy, sound);
      ghost var t1 := Now();
      pick := input[c].pick;
      if sound { PickKept(w, t1, busy, c); }
      if pick.Some? && visible[pick.value] != NO { return; }
      if sound { ReadableStays(w, t0, t1, busy, c); }
      pick := ChoiceDefault(c, w, busy, sound);
      ghost var t2 := Now();
      KeepsOwn(defs, t1, t2, c, {});
      GrowsWiden(defs, t1, t2, {}, {}, {c}, looked);
      ThenAfter(t0, t1, {c}, looked);
      if sound { RightTransitive(w, t0, t1, t2, busy, w.rank(c)); }
      if pick.None? {
        OwnGrows(defs, t0, t2, t2.(curr := t2.curr[c := t2.curr[c].(tri := NO)]), c, looked);
        if sound { OwnRight(w, t0, t2, t2.(curr := t2.curr[c := t2.curr[c].(tri := NO)]), busy, w.rank(c), c); }
        curr := curr[c := curr[c].(tri := NO)];
        assert Now() == t2.(curr := t2.curr[c := t2.curr[c].(tri := NO)]);
        if sound { UnmarkLooked(w, t2, Now(), c); }
      }
    }

    /** sym_calc_value. It terminates on every table, because each call that does anything makes
        one more symbol valid; on an acyclic one everything it makes valid is right. If MODULES gets
        a value other than modules_val, only the values are; what its conditions read has been
        calculated before. */
    method CalcValue(s: nat, ghost w: World, ghost busy: set<nat>, ghost sound: bool)
      requires Shape() && s < |defs|
      requires sound ==> About(w) && Sound(w, Now(), busy)
      requires sound ==> s in valid || (Allowed(w, w.rank(s)) && forall b :: b in busy ==> w.rank(b) > w.rank(s))
      modifies this
      ensures s in valid && After(old(Now()), {}, {})
      ensures s in old(valid) ==> Now() == old(Now())
      ensures s !in old(valid) && defs[s].typ != Unknown ==> ConditionsValid(defs[s], valid)
      ensures sound && (s == modules ==> s in old(valid) || (WellFormed(w) && ModulesAgree(w))) ==>
        Right(w, old(Now()), Now(), busy, w.rank(s) + 1)
      ensures sound ==> ValuesRight(w, Now(), busy)
      decreases Open(|defs|, valid), 0
    {
      hide Grows, Sound, KnownDefs, Settled, Readable, NewBelow, Open, MembersOf, Right, ConditionsValid, ValuesRight, MembersReady;
      ghost var t0 := Now();
      GrowsReflexive(defs, t0);
      if s in valid {
        if sound {
          RightReflexive(w, t0, busy, w.rank(s) + 1);
          SoundValues(w, t0, busy);
        }
        return;
      }
      valid := valid + {s};
      OpenDrops(|defs|, t0.valid, s);
      if defs[s].choiceOf.None? { written := written - {s}; }
      ghost var t1 := Now();
      if sound { StartSound(w, t0, t1, busy, s); }
      CalcBody(s, w, busy, sound);
      FreshGrows(defs, t0, t1, Now(), s);
      if sound && (s == modules ==> ModulesAgree(w)) { FinishSound(w, t0, t1, Now(), busy, s); }
    }

    /** sym_calc_value after the symbol has been marked valid. */
    method CalcBody(s: nat, ghost w: World, ghost busy: set<nat>, ghost sound: bool)
      requires Shape() && s < |defs| && s in valid && (defs[s].choiceOf.None? ==> s !in written)
      requires sound ==> Reading(w, busy + {s}, w.rank(s), None) && input[s] == w.input[s]
      modifies this
      ensures After(old(Now()), {s}, {s} + MembersOf(defs, s))
      ensures defs[s].typ != Unknown ==> ConditionsValid(defs[s], valid)
      ensures sound && (s == modules ==> WellFormed(w) && ModulesAgree(w)) ==>
        Right(w, old(Now()), Now(), busy + {s}, w.rank(s)) && Settled(w, Now(), s) && MembersReady(w, Now(), s)
      ensures sound ==> ValuesRight(w, Now(), busy)
      ensures sound && defs[s].typ != Unknown && defs[s].choiceOf.Some? ==>
        defs[s].choiceOf.value in valid && defs[s].choiceOf.value !in busy + {s}
      decreases Open(|defs|, valid), 13
    {
      hide Grows, Sound, Readable, NewBelow, Open, KnownDefs, MembersOf, Below, Settled, MarkRight, MembersReady, MembersLooked, ValuesRight, ConditionsValid, Right;
      ghost var t1 := Now();
      var before := curr[s];
      CalcStored(s, w, busy + {s}, sound);
      ghost var t2 := Now();
      FollowUp(s, curr[s] != before, w, busy + {s}, sound, t1);
      if sound { OneMoreValue(w, t1, t2, Now(), busy, w.rank(s), s); }
    }

    /** The conditions, the value and the selection of s. */
    method CalcStored(s: nat, ghost w: World, ghost busy: set<nat>, ghost sound: bool)
      requires Shape() && s < |defs| && s in valid && (defs[s].choiceOf.None? ==> s !in written)
      requires sound ==> Reading(w, busy, w.rank(s), None) && s in busy && input[s] == w.input[s]
      modifies this
      ensures After(old(Now()), {s}, {s} + MembersOf(defs, s))
      ensures defs[s].typ != Unknown ==> ConditionsValid(defs[s], valid)
      ensures sound ==> WellFormed(w) && Right(w, old(Now()), Now(), busy, w.rank(s)) && Settled(w, Now(), s) && MarkRight(w, Now(), s)
      ensures sound && defs[s].isChoice && defs[s].typ != Unknown && Calc(w, s).value.tri == YES ==>
        s in written && MembersLooked(w, Now(), s, |defs[s].members|)
      ensures sound && defs[s].typ != Unknown && defs[s].choiceOf.Some? ==>
        defs[s].choiceOf.value in valid && defs[s].choiceOf.value !in busy
      decreases Open(|defs|, valid), 12
    {
      hide Grows, Sound, Readable, NewBelow, Open, KnownDefs, MembersOf, Below, ConditionsValid, MembersLooked;
      var d := defs[s];
      ghost var t1 := Now();
      GrowsReflexive(defs, t1);
      GrowsWiden(defs, t1, t1, {}, {}, {s}, {s} + MembersOf(defs, s));
      if sound { RightReflexive(w, t1, busy, w.rank(s)); BodyFacts(w, t1, busy, s); }
      if d.typ == Unknown {
        StoreOwn(s, Value(NO, d.name, None), false, w, busy, sound, w.rank(s), t1, {s} + MembersOf(defs, s));
        return;
      }
      CalcOwn(s, w, busy, sound);
      GrowsWiden(defs, t1, Now(), {s}, {s}, {s}, {s} + MembersOf(defs, s));
      if d.isChoice && curr[s].tri == YES {
        ghost var t2 := Now();
        if sound { ReadableWithin(w, t1, t2, busy, s); }
        Select(s, w, busy, sound);
        ThenAfter(t1, t2, {s}, {s} + MembersOf(defs, s));
        ConditionsValidGrows(d, t2.valid, valid);
        if sound { RightTransitive(w, t1, t2, Now(), busy, w.rank(s)); }
      } else {
        if sound {
          SettledOwn(w, Now(), s);
          OffKeepsMark(w, Now(), s);
        }
      }
      if sound && d.isChoice { YesIsWritten(w, s); }
    }

    /** The end of sym_calc_value: modules_val follows, and a written choice marks its members. */
    method FollowUp(s: nat, changed: bool, ghost w: World, ghost busy: set<nat>, ghost sound: bool, ghost first: State)
      requires s < |defs| && After(first, {s}, {s} + MembersOf(defs, s)) && s in valid
      requires sound ==> About(w) && Right(w, first, Now(), busy, w.rank(s)) && s in busy && WellFormed(w) && Settled(w, Now(), s) && MarkRight(w, Now(), s)
      requires sound && defs[s].isChoice && defs[s].typ != Unknown && Calc(w, s).value.tri == YES ==>
        s in written && MembersLooked(w, Now(), s, |defs[s].members|)
      modifies this`modulesVal, this`written
      ensures After(first, {s}, {s} + MembersOf(defs, s))
      ensures sound && (s == modules ==> ModulesAgree(w)) ==>
        Right(w, first, Now(), busy, w.rank(s)) && Settled(w, Now(), s) && MembersReady(w, Now(), s)
    {
      hide Grows, Sound, NewBelow, Open, KnownDefs, MembersOf, Settled, MarkRight, MembersLooked, Right, Calc;
      if defs[s].typ == Unknown {
        if sound { UnknownIsReady(w, Now(), s); }
        return;
      }
      ghost var agree := sound && (s == modules ==> ModulesAgree(w));
      ghost var t := Now();
      if changed && s == modules {
        UpdateModules(w, busy, agree, w.rank(s), first, {s}, {s} + MembersOf(defs, s));
        if agree { MvKeeps(w, t, s, modulesVal); }
      }
      if defs[s].isChoice {
        MarkMembers(s, w, busy, agree, first);
      }
    }

    /** A choice with the value y selects a member. */
    method Select(s: nat, ghost w: World, ghost busy: set<nat>, ghost sound: bool)
      requires Shape() && s < |defs| && s in valid && defs[s].isChoice && defs[s].typ != Unknown && curr[s].tri == YES
      requires sound ==> About(w) && Sound(w, Now(), busy) && Readable(w, Now(), busy, w.rank(s), Some(s)) && s in busy
      requires sound ==> OwnDone(w, Now(), s) && ChoiceBelow(w, s) && WellFormed(w) && input[s] == w.input[s]
      modifies this
      ensures After(old(Now()), {s}, {s} + MembersOf(defs, s))
      ensures sound ==> Right(w, old(Now()), Now(), busy, w.rank(s)) && Settled(w, Now(), s)
      ensures sound ==> MembersLooked(w, Now(), s, |defs[s].members|) && MarkRight(w, Now(), s)
      decreases Open(|defs|, valid), 9
    {
      hide MarkKept, LosesMark, Grows, Sound, NewBelow, Open, KnownDefs, Readable;
      ghost var t0, looked := Now(), {s} + MembersOf(defs, s);
      if sound { AllMembersOpen(w, t0, busy, s); }
      var pick := CalcChoice(s, w, busy, sound);
      ghost var t1 := Now();
      if sound { OwnConditionsStay(w, t0, t1, s); }
      GrowsWiden(defs, t0, t1, {s}, MembersOf(defs, s), {s}, looked);
      StoreOwn(s, curr[s].(pick := pick), false, w, busy, sound, w.rank(s), t0, looked);
      if sound {
        SettledChoice(w, t0, Now(), s, pick);
        MarkIsRight(w, Now(), s);
      }
    }

    /** modules_val follows modules_sym. */
    method UpdateModules(ghost w: World, ghost busy: set<nat>, ghost sound: bool, ghost bound: nat, ghost first: State, ghost own: set<nat>, ghost looked: set<nat>)
      requires After(first, own, looked)
      requires sound ==> About(w) && Right(w, first, Now(), busy, bound) && WellFormed(w) && Settled(w, Now(), modules) && ModulesAgree(w)
      modifies this`modulesVal
      ensures After(first, own, looked)
      ensures Open(|defs|, valid) == old(Open(|defs|, valid))
      ensures Now() == old(Now()).(mv := old(curr)[modules].tri)
      ensures sound ==> Right(w, first, Now(), busy, bound) && Settled(w, Now(), modules)
    {
      hide Grows, SymbolBelow, KnownDefs;
      MvGrows(defs, first, Now(), own, looked, curr[modules].tri);
      ghost var t := Now();
      modulesVal := curr[modules].tri;
      assert Now() == t.(mv := t.curr[modules].tri);
    }

    /** The loop over the choice values at the end of sym_calc_value. */
    method MarkVisible(s: nat)
      requires Shape() && s < |defs|
      modifies this`written
      ensures MarkedUpTo(defs, old(Now()), written, s, |defs[s].members|)
    {
      hide KnownDefs;
      ghost var t := Now();
      var members := defs[s].members;
      var i := 0;
      while i < |members|
        invariant 0 <= i <= |members|
        invariant MarkedUpTo(defs, t, written, s, i) && (s in written <==> s in t.written)
      {
        MembersKnown(defs, s, i);
        if s in written && visible[members[i]] != NO { written := written + {members[i]}; }
        i := i + 1;
      }
    }

    /** A choice that is written makes its visible members written. */
    method MarkMembers(s: nat, ghost w: World, ghost busy: set<nat>, ghost sound: bool, ghost first: State)
      requires s < |defs| && After(first, {s}, {s} + MembersOf(defs, s)) && s in valid
      requires sound ==> About(w) && Right(w, first, Now(), busy, w.rank(s)) && s in busy && WellFormed(w) && Settled(w, Now(), s)
      requires sound && Calc(w, s).value.tri == YES ==> s in written && MembersLooked(w, Now(), s, |defs[s].members|)
      requires sound ==> MarkRight(w, Now(), s)
      modifies this`written
      ensures After(first, {s}, {s} + MembersOf(defs, s))
      ensures sound ==> Right(w, first, Now(), busy, w.rank(s)) && Settled(w, Now(), s) && MembersReady(w, Now(), s)
    {
      hide Grows, Sound, MemberVisible, Calc, SymbolBelow, OnlyOwn, Settled, MembersReady, MarkRight, MarkedUpTo, MembersLooked;
      ghost var t := Now();
      MarkVisible(s);
      assert Now() == t.(written := written);
      MarkedIsOwn(defs, t, written, s);
      OwnGrows(defs, first, t, Now(), s, {s} + MembersOf(defs, s));
      if sound {
        OwnRight(w, first, t, Now(), busy, w.rank(s), s);
        MarkedIsReady(w, t, written, s);
      }
    }

    /** One assignment to curr, and to SYMBOL_WRITE when mark says so. */
    method StoreOwn(s: nat, v: Value, mark: bool, ghost w: World, ghost busy: set<nat>, ghost sound: bool, ghost bound: nat, ghost first: State, ghost looked: set<nat>)
      requires s < |defs| && After(first, {s}, looked)
      requires sound ==> About(w) && Right(w, first, Now(), busy, bound) && s in busy
      modifies this
      ensures After(first, {s}, looked) && Open(|defs|, valid) == old(Open(|defs|, valid))
      ensures Now() == old(Now()).(curr := old(curr)[s := v], written := if mark then old(written) + {s} else old(written))
      ensures sound ==> Right(w, first, Now(), busy, bound)
    {
      hide Grows, Sound, KnownDefs;
      ghost var t := Now();
      ghost var t' := t.(curr := t.curr[s := v], written := if mark then t.written + {s} else t.written);
      OwnGrows(defs, first, t, t', s, looked);
      if sound { OwnRight(w, first, t, t', busy, bound, s); }
      curr := curr[s := v];
      if mark { written := written + {s}; }
      assert Now() == t';
    }

    /** The new value of s and whether to write it, once its conditions are known. */
    method OwnValue(s: nat, ghost w: World, ghost busy: set<nat>, ghost sound: bool) returns (v: Value, mark: bool)
      requires Shape() && s < |defs| && s in valid && defs[s].typ != Unknown
      requires sound ==> Reading(w, busy, w.rank(s), None) && input[s] == w.input[s] && BodyReadable(w, s)
      requires sound ==> ChoiceRight(w, Now(), s) && Looked(w, Now(), s, w.rank(s), None)
      requires sound && defs[s].choiceOf.Some? ==> defs[s].choiceOf.value in valid
      modifies this
      ensures After(old(Now()), {}, {})
      ensures defs[s].choiceOf.None? ==> (s in written <==> s in old(written))
      ensures input[s] == old(input[s])
      ensures sound ==> Right(w, old(Now()), Now(), busy, w.rank(s)) && OwnIs(w, Now(), s, v, mark)
      decreases Open(|defs|, valid), 10
    {
      hide Grows, Sound, Readable, NewBelow, Open, KnownDefs, Below, Known, PromptsBelow, DefaultsReadable;
      ghost var t0 := Now();
      if HasText(defs[s]) {
        var text;
        text, mark := CalcText(s, w, busy, sound);
        v := Value(NO, text, None);
      } else {
        var t;
        t, mark := CalcTri(s, w, busy, sound);
        v := Value(t, "n", None);
      }
      KeepsOwn(defs, t0, Now(), s, {});
      if sound { KeepsLooked(w, t0, Now(), s); }
    }

    /** Visibility and the symbol's own value, before a choice selects a member. */
    method CalcOwn(s: nat, ghost w: World, ghost busy: set<nat>, ghost sound: bool)
      requires Shape() && s < |defs| && s in valid && defs[s].typ != Unknown && (defs[s].choiceOf.None? ==> s !in written)
      requires sound ==> Reading(w, busy, w.rank(s), None) && s in busy && input[s] == w.input[s] && BodyReadable(w, s)
      modifies this
      ensures After(old(Now()), {s}, {s}) && input[s] == old(input[s]) && ConditionsValid(defs[s], valid)
      ensures sound ==> Right(w, old(Now()), Now(), busy, w.rank(s)) && OwnDone(w, Now(), s)
      ensures sound && defs[s].choiceOf.Some? ==> defs[s].choiceOf.value in valid && defs[s].choiceOf.value !in busy
      decreases Open(|defs|, valid), 11
    {
      hide Grows, Sound, NewBelow, Open, KnownDefs, Below, Known, ConditionsValid, PromptsBelow, DefaultsReadable, ChoiceRight, Looked, OwnIs, OwnDone;
      ghost var t0, bound := Now(), w.rank(s);
      ConditionsFirst(s, w, busy, sound);
      ghost var t2 := Now();
      var v, mark := OwnValue(s, w, busy, sound);
      ghost var t3 := Now();
      if sound { RightTransitive(w, t0, t2, t3, busy, bound); }
      GrowsWiden(defs, t2, t3, {}, {}, {s}, {s});
      ThenAfter(t0, t2, {s}, {s});
      StoreOwn(s, v, mark, w, busy, sound, bound, t0, {s});
      if sound { OwnStored(w, t3, Now(), s, v, mark); }
      ConditionsValidGrows(defs[s], t2.valid, valid);
    }

    /** Visibility and both dependencies, and the value a symbol has before its own is known. */
    method ConditionsFirst(s: nat, ghost w: World, ghost busy: set<nat>, ghost sound: bool)
      requires Shape() && s < |defs| && s in valid && defs[s].typ != Unknown
      requires sound ==> Reading(w, busy, w.rank(s), None) && s in busy && input[s] == w.input[s] && BodyReadable(w, s)
      modifies this
      ensures After(old(Now()), {s}, {s}) && input[s] == old(input[s]) && ConditionsValid(defs[s], valid)
      ensures Open(|defs|, valid) <= old(Open(|defs|, valid)) && s in valid
      ensures defs[s].choiceOf.None? ==> (s in written <==> s in old(written))
      ensures sound ==> Right(w, old(Now()), Now(), busy, w.rank(s)) && Reading(w, busy, w.rank(s), None)
      ensures sound ==> ChoiceRight(w, Now(), s) && Looked(w, Now(), s, w.rank(s), None)
      ensures sound && defs[s].choiceOf.Some? ==> defs[s].choiceOf.value in valid && defs[s].choiceOf.value !in busy
      decreases Open(|defs|, valid), 10
    {
      hide Grows, Sound, NewBelow, Open, KnownDefs, Below, Known, ConditionsValid, PromptsBelow, DefaultsReadable;
      var d := defs[s];
      ghost var t0, bound := Now(), w.rank(s);
      assert sound ==> MayStore(w, t0, busy, s, bound, None);
      CalcVisibility(s, w, busy, sound, bound, None);
      ghost var t1 := Now();
      KeepsOwn(defs, t0, t1, s, {s});
      GrowsWiden(defs, t0, t1, {}, {s}, {s}, {s});
      StoreOwn(s, if HasText(d) then EMPTY else NOTHING, false, w, busy, sound, bound, t0, {s});
      if sound { ChoiceIsRight(w, Now(), busy, s); }
    }

    constructor (defs: seq<Def>, modules: nat, input: seq<Input>, mv: Tri)
      requires KnownDefs(defs) && modules < |defs| == |input|
      requires forall k :: 0 <= k < |defs| && input[k].pick.Some? ==> input[k].pick.value < |defs|
      ensures Shape() && this.defs == defs && this.modules == modules
      ensures this.input == input && modulesVal == mv && valid == {}
    {
      this.defs, this.modules, this.input, this.modulesVal := defs, modules, input, mv;
      valid, written := {}, {};
      curr := seq(|defs|, _ => NOTHING);
      visible := seq(|defs|, _ => NO);
      dir := seq(|defs|, _ => NO);
      rev := seq(|defs|, _ => NO);
    }

    /** With nothing valid, a table is right for the world of its input. */
    lemma FreshSound(w: World)
      requires Shape() && About(w) && Acyclic(w)
      requires valid == {} && input == w.input && modulesVal == w.mv
      ensures Sound(w, Now(), {})
    {
    }

    /** Calculate some symbols, in the order given. Whatever the order, on an acyclic table every
        symbol ends up with the outcome of the recursive definition. */
    method CalcAll(order: seq<nat>, ghost w: World, ghost sound: bool)
      requires Shape() && forall s :: s in order ==> s < |defs|
      requires sound ==> About(w) && Sound(w, Now(), {}) && WellFormed(w) && ModulesAgree(w)
      modifies this
      ensures Shape() && old(valid) <= valid && forall s :: s in order ==> s in valid
      ensures forall k :: k in old(valid) ==> curr[k] == old(curr[k])
      ensures sound ==> Sound(w, Now(), {}) && forall k :: k in valid ==> Settled(w, Now(), k)
    {
      hide Grows, Sound, KnownDefs, Settled, SameSizes, Open, Right;
      ghost var t0 := Now();
      GrowsReflexive(defs, t0);
      var i := 0;
      while i < |order|
        invariant 0 <= i <= |order|
        invariant After(t0, {}, {})
        invariant forall j :: 0 <= j < i ==> order[j] in valid
        invariant sound ==> Sound(w, Now(), {})
      {
        ghost var before := Now();
        assert order[i] in order;
        CalcValue(order[i], w, {}, sound);
        ThenAfter(t0, before, {}, {});
        if sound { SoundAfter(w, before, Now(), {}, w.rank(order[i]) + 1); }
        i := i + 1;
      }
      KeepsValues(defs, t0, Now());
      if sound { AllSettled(w, Now()); }
    }

    /** sym_clear_all_valid. If MODULES gets a value other than modules_val, the symbols that its
        conditions read have been calculated before modules_val follows. */
    method ClearAllValid(ghost w: World, ghost sound: bool)
      requires Shape()
      requires sound ==> About(w) && Acyclic(w) && w.input == input && w.mv == modulesVal
      modifies this
      ensures Shape() && modules in valid
      ensures forall k :: 0 <= k < |defs| ==> InputKept(defs[k], old(input)[k], input[k])
      ensures defs[modules].typ != Unknown ==> ConditionsValid(defs[modules], valid)
      ensures sound ==> ValuesRight(w, Now(), {}) && WellFormed(w)
      ensures sound && ModulesAgree(w) ==> Sound(w, Now(), {})
    {
      valid := {};
      if sound { FreshSound(w); }
      CalcValue(modules, w, {}, sound);
    }

    /** sym_tristate_within_range on the stored values. */
    predicate InRange(s: nat, v: Tri)
      reads this
      requires s < |defs| && s < |visible| && s < |rev|
    {
      var d := defs[s];
      if visible[s] == NO then false
      else if !HasTri(d) then false
      else if EffectiveType(d, visible[s], modulesVal) == Boolean && v == MOD then false
      else if visible[s] <= rev[s] then false
      else if d.choiceOf.Some? && visible[s] == YES then v == YES
      else rev[s] <= v <= visible[s]
    }

    lemma InRangeRight(w: World, s: nat, v: Tri)
      requires Shape() && About(w) && Sound(w, Now(), {}) && s in valid && s < |defs|
      requires defs[s].typ != Unknown
      ensures |w.input| == |w.defs| && (InRange(s, v) <==> WithinRange(w, s, v)) && curr[s].tri == Calc(w, s).value.tri
    {
      assert Settled(w, Now(), s);
    }

    /** Every choice that is on, except perhaps one, still has its user mark or is selected. */
    predicate MarksStay(except: Option<nat>)
      reads this
      requires Shape()
    {
      forall c :: 0 <= c < |defs| && c in valid && except != Some(c) && defs[c].isChoice && defs[c].typ != Unknown && curr[c].tri == YES ==>
        input[c].given || rev[c] == YES
    }

    /** Calculating everything again from the stored input gives what is stored, if and only if this
        holds of all choices. */
    lemma StoredMarksDecide(w: World)
      requires Shape() && About(w) && Sound(w, Now(), {})
      ensures Acyclic(w) && (MarksStay(None) <==> Repeats(w, w.(input := input)))
    {
      InputIsLeft(w, Now());
      RecalculationRepeats(w, valid);
      hide Sound, Repeats, Acyclic, LosesMark;
      SoundFacts(w, Now(), {});
      forall c | 0 <= c < |defs| && c in valid
        ensures (defs[c].isChoice && defs[c].typ != Unknown && curr[c].tri == YES ==> input[c].given || rev[c] == YES)
           <==> (LosesMark(w, c) ==> Calc(w, c).rev == YES)
      {
        StoredMark(w, Now(), c);
      }
    }

    /** A prompt of MODULES, its dir_dep or its rev_dep reads the symbol. */
    ghost predicate ReadByModules(s: nat)
      reads this
      requires Shape() && s < |defs|
    {
      var d, sym := defs[modules], Var(s, defs[s].typ);
      && d.typ != Unknown
      && ((exists p :: p in d.prompts && p.Some? && Contains(p.value, sym))
          || (d.choiceOf.None? && d.dirDep.Some? && Contains(d.dirDep.value, sym))
          || (d.choiceOf.None? && d.revDep.Some? && Contains(d.revDep.value, sym)))
    }

    /** What setting s to v leaves in the input: no user value but that of s changes, with y for a choice
        value its choice picks it, every symbol that setting it marks is marked, and no other mark changes,
        except that the calculation may take the mark of a choice. */
    ghost predicate IsSet(was: seq<Input>, seen: seq<Tri>, s: nat, v: Tri)
      reads this
    {
      s < |defs| == |was| == |seen| == |input| &&
      forall k :: 0 <= k < |defs| ==>
        && Recorded(defs, s, v, k, was[k], input[k])
        && (input[k].given == (was[k].given || Marks(defs, seen, s, v, k)) || (defs[k].isChoice && !input[k].given))
    }

    /** No value of the choice can be seen that could not be seen before. */
    ghost predicate NoneAppears(c: nat, seen: seq<Tri>)
      reads this
      requires c < |defs|
    {
      forall m :: m in defs[c].members && m < |visible| && m < |seen| && visible[m] != NO ==> seen[m] != NO
    }

    lemma KeptIsSet(was: seq<Input>, seen: seq<Tri>, s: nat, v: Tri, stored: seq<Input>)
      requires s < |defs| == |was| == |seen| == |input| && stored == SetUser(defs, was, seen, s, v)
      requires forall k :: 0 <= k < |defs| ==> InputKept(defs[k], stored[k], input[k])
      ensures IsSet(was, seen, s, v)
    {
      hide SetUser, Marks;
      forall k | 0 <= k < |defs|
        ensures && Recorded(defs, s, v, k, was[k], input[k])
                && (input[k].given == (was[k].given || Marks(defs, seen, s, v, k)) || (defs[k].isChoice && !input[k].given))
      {
        SetUserRecords(defs, was, seen, s, v, k);
      }
    }

    /** A choice whose value was set to y has marked all its values that can be seen, so that it does
        not lose its own mark to them. */
    lemma PickedKeepsMark(w: World, was: seq<Input>, seen: seq<Tri>, s: nat)
      requires Shape() && About(w) && Sound(w, Now(), {}) && s in valid && s < |defs| == |was| == |seen|
      requires defs[s].typ != Unknown && defs[s].choiceOf.Some? && w.input == SetUser(defs, was, seen, s, YES)
      ensures defs[s].choiceOf.value < |defs|
      ensures NoneAppears(defs[s].choiceOf.value, seen) ==> input[defs[s].choiceOf.value].given
    {
      hide SymbolBelow, ModulesAgree, SetUser, MemberVisible;
      var c := defs[s].choiceOf.value;
      ChoiceKnown(defs, s);
      StoredMark(w, Now(), c);
      SetUserRecords(defs, was, seen, s, YES, c);
      if LosesMark(w, c) && NoneAppears(c, seen) {
        var m :| Unmarked(w, c, m);
        assert MembersReady(w, Now(), c);
        Family(w, s);
        assert SymbolBelow(w, c);
        SetUserRecords(defs, was, seen, s, YES, m);
      }
    }

    static function Noted(a: Input, marked: bool, pick: Option<nat>): Input {
      a.(given := a.given || marked, pick := pick)
    }

    /** The part of sym_set_tristate_value that stores the value. */
    method RecordUser(s: nat, v: Tri)
      requires s < |defs| == |input| == |visible| && (defs[s].choiceOf.Some? ==> defs[s].choiceOf.value < |defs|)
      requires defs[s].choiceOf.Some? ==> forall m :: m in defs[defs[s].choiceOf.value].members ==> m < |defs|
      modifies this`input
      ensures input == SetUser(defs, old(input), visible, s, v)
    {
      ghost var was := input;
      input := input[s := input[s].(given := true)];
      if defs[s].choiceOf.Some? && v == YES {
        var c := defs[s].choiceOf.value;
        var members := defs[c].members;
        input := input[c := input[c].(given := true, pick := Some(s))];
        var i := 0;
        while i < |members|
          invariant 0 <= i <= |members| && |input| == |was|
          invariant forall k :: 0 <= k < |was| ==>
            input[k] == Noted(was[k], k == s || k == c || (k in members[..i] && visible[k] != NO), if k == c then Some(s) else was[k].pick)
        {
          var m := members[i];
          assert m in members;
          if visible[m] != NO { input := input[m := input[m].(given := true)]; }
          assert members[..i + 1] == members[..i] + [m];
          i := i + 1;
        }
        assert members[..i] == members;
      }
      input := input[s := input[s].(tri := v)];
    }

    /** s has the value v, as far as it can. */
    ghost predicate HasEffect(w: World, was: seq<Input>, seen: seq<Tri>, s: nat, v: Tri, stay: bool)
      reads this
      requires |was| == |w.defs| == |seen| && s < |w.defs| == |w.input|
    {
      && s < |curr|
      && (Takes(w, s) && stay ==> (curr[s].tri == v <==> !(w.defs[s].isChoice && v == YES && NoVisibleMember(w, s))))
      && (MayTake(AfterSet(w, was, seen, s, v), s, v) ==> (curr[s].tri == v <==> TakesEffect(w.(input := was), s, v)))
    }

    lemma EffectIsThere(w: World, was: seq<Input>, seen: seq<Tri>, s: nat, v: Tri, stay: bool)
      requires |was| == |w.defs| == |seen| && s < |w.defs| && s in valid && HasTri(w.defs[s])
      requires Acyclic(w) && Acyclic(w.(input := was)) && WithinRange(w, s, v) && (stay ==> MarksLeft(w, was, Remarked(w.defs, s, v)))
      requires ValuesRight(AfterSet(w, was, seen, s, v), Now(), {})
      ensures HasEffect(w, was, seen, s, v, stay)
    {
      hide SymbolBelow, WithinRange, Takes, MayTake, TakesEffect, NoVisibleMember, MarksLeft;
      if stay && Takes(w, s) { NewValueIsThere(w, Now(), was, seen, s, v); }
      if MayTake(AfterSet(w, was, seen, s, v), s, v) { NewValueExactly(w, Now(), was, seen, s, v); }
    }

    /** sym_set_tristate_value. The caller of the C function reads the value afterwards through
        sym_calc_value, which is included here. An accepted value is then what the symbol has, if no
        other choice has lost a mark it depends on, except for y for a choice none of whose members
        would be visible; whatever choices have lost, exactly if the symbol
        can take the value in the table calculated anew from the stored input. This is so as long as
        MODULES keeps its value, and for MODULES itself and what its conditions read anyway. */
    method SetTristateValue(s: nat, v: Tri, ghost w: World, ghost sound: bool) returns (accepted: bool)
      requires Shape() && s < |defs| && s in valid && defs[s].typ != Unknown
      requires sound ==> About(w) && Sound(w, Now(), {})
      modifies this
      ensures Shape()
      ensures accepted <==> old(curr[s].tri) == v || old(InRange(s, v))
      ensures !accepted ==> Now() == old(Now())
      ensures accepted && old(curr[s].tri) == v ==>
        input == SetUser(defs, old(input), old(visible), s, v) && curr == old(curr) && valid == old(valid)
      ensures accepted ==> IsSet(old(input), old(visible), s, v)
      ensures accepted && v == YES && defs[s].choiceOf.Some? && defs[s].choiceOf.value < |defs| ==>
        (old(curr[s].tri) == v || (sound && ModulesAgree(AfterSet(w, old(input), old(visible), s, v)))) ==>
          (NoneAppears(defs[s].choiceOf.value, old(visible)) ==> input[defs[s].choiceOf.value].given)
      ensures accepted && old(curr[s].tri) != v && sound ==>
        var next := AfterSet(w, old(input), old(visible), s, v);
        && WellFormed(next) && (ModulesAgree(next) ==> Sound(next, Now(), {}) && s in valid)
        && (ModulesAgree(next) || s == modules || old(ReadByModules(s)) ==>
              HasEffect(w, old(input), old(visible), s, v, old(MarksStay(Remarked(defs, s, v)))))
    {
      hide Grows, Acyclic, ModulesAgree, Settled, Sound, KnownDefs, WithinRange, Calc, SetUser, Takes, Open, MarksStay, TakesEffect, MayTake;
      hide NoVisibleMember, ReadByModules, ConditionsValid, ValuesRight, IsSet, NoneAppears, Marks, Recorded, HasEffect, MarksLeft;
      var oldval := curr[s].tri;
      if oldval != v && !InRange(s, v) { return false; }
      ghost var seen, now, stay, read := visible, input, MarksStay(Remarked(defs, s, v)), ReadByModules(s);
      ChoiceKnown(defs, s);
      if sound {
        InRangeRight(w, s, v);
        SoundFacts(w, Now(), {});
        StoredAgrees(w, Now(), s, v);
        if stay { StaysIsLeft(w, s, v); }
      }
      SetUserKeepsSizes(defs, Now(), s, v);
      if read { ReadIsValid(s); }
      if defs[s].choiceOf.Some? { AllMembersKnown(defs, defs[s].choiceOf.value); }
      RecordUser(s, v);
      KeptIsSet(now, seen, s, v, input);
      if defs[s].choiceOf.Some? && v == YES { ChoiceIsMarked(defs, now, seen, s); }
      if oldval != v {
        ghost var next := AfterSet(w, now, seen, s, v);
        RecalculateSet(s, v, next, sound, read, now, seen);
        if sound && (ModulesAgree(next) || s == modules || read) { EffectIsThere(w, now, seen, s, v, stay); }
      }
      return true;
    }

    /** The recalculation after s has been set to v. */
    method RecalculateSet(s: nat, ghost v: Tri, ghost w: World, ghost sound: bool, ghost read: bool, ghost was: seq<Input>, ghost seen: seq<Tri>)
      requires Shape() && s < |defs| == |was| == |seen| && defs[s].typ != Unknown && input == SetUser(defs, was, seen, s, v)
      requires sound ==> About(w) && Acyclic(w) && w.input == input && w.mv == modulesVal
      requires read ==> defs[modules].typ != Unknown && forall valid :: ConditionsValid(defs[modules], valid) ==> s in valid
      modifies this
      ensures Shape() && s in valid && IsSet(was, seen, s, v)
      ensures sound ==> WellFormed(w) && (ModulesAgree(w) ==> Sound(w, Now(), {}))
      ensures sound && (ModulesAgree(w) || s == modules || read) ==> ValuesRight(w, Now(), {})
      ensures sound && v == YES && defs[s].choiceOf.Some? && defs[s].choiceOf.value < |defs| && ModulesAgree(w) ==>
        (NoneAppears(defs[s].choiceOf.value, seen) ==> input[defs[s].choiceOf.value].given)
    {
      hide Grows, Acyclic, ModulesAgree, Sound, KnownDefs, ConditionsValid, ValuesRight, SetUser, IsSet, NoneAppears, Marks, Recorded;
      ghost var stored := input;
      Recalculate(s, w, sound, read);
      KeptIsSet(was, seen, s, v, stored);
      if sound && v == YES && defs[s].choiceOf.Some? && ModulesAgree(w) { PickedKeepsMark(w, was, seen, s); }
    }

    /** sym_clear_all_valid, then sym_calc_value of one symbol. */
    method Recalculate(s: nat, ghost w: World, ghost sound: bool, ghost read: bool)
      requires Shape() && s < |defs|
      requires sound ==> About(w) && Acyclic(w) && w.input == input && w.mv == modulesVal
      requires read ==> defs[modules].typ != Unknown && forall valid :: ConditionsValid(defs[modules], valid) ==> s in valid
      modifies this
      ensures Shape() && s in valid
      ensures forall k :: 0 <= k < |defs| ==> InputKept(defs[k], old(input)[k], input[k])
      ensures sound ==> WellFormed(w) && (ModulesAgree(w) ==> Sound(w, Now(), {}))
      ensures sound && (ModulesAgree(w) || s == modules || read) ==> ValuesRight(w, Now(), {})
    {
      hide Grows, Acyclic, ModulesAgree, Sound, KnownDefs, ConditionsValid, ValuesRight;
      ClearAllValid(w, sound);
      ghost var before := Now();
      CalcValue(s, w, {}, sound && ModulesAgree(w));
      InputsKept(defs, before, Now());
      if sound && ModulesAgree(w) { SoundAfter(w, before, Now(), {}, w.rank(s) + 1); }
    }

    lemma ReadIsValid(s: nat)
      requires Shape() && s < |defs| && ReadByModules(s)
      ensures defs[modules].typ != Unknown && forall valid :: ConditionsValid(defs[modules], valid) ==> s in valid
    {
      var d, sym := defs[modules], Var(s, defs[s].typ);
      forall valid | ConditionsValid(d, valid)
        ensures s in valid
      {
        if p :| p in d.prompts && p.Some? && Contains(p.value, sym) { assert AllValid(p.value, valid); }
      }
    }

    /** A choice value that is y stays y when a symbol is set that it does not depend on, which can then
        be ranked above it, if every choice that is on has its mark or is selected. The picked value of
        a choice satisfies that because its choice keeps its mark. */
    lemma PickStays(w: World, m: nat, x: nat, v: Tri)
      requires Shape() && About(w) && Sound(w, Now(), {}) && MarksStay(None)
      requires m in valid && defs[m].choiceOf.Some? && defs[m].typ != Unknown && curr[m].tri == YES
      requires x < |defs| && w.rank(x) > w.rank(m) && defs[x].typ != Unknown
      requires PickedIn(defs, x, v).Some? && PickedIn(defs, x, v).value < |defs| ==> w.rank(PickedIn(defs, x, v).value) > w.rank(m)
      ensures var next := AfterSet(w, input, visible, x, v); WellFormed(next) && Calc(next, m).value.tri == YES
    {
      hide Sound, SetUser, Marks, Calc, StaysOn, SymbolBelow, MarksStay;
      SoundFacts(w, Now(), {});
      AllStay(w);
      StoredMark(w, Now(), m);
      ChoiceKnown(defs, x);
      if defs[x].choiceOf.Some? { Family(w, x); }
      var next := AfterSet(w, input, visible, x, v);
      forall k | 0 <= k < |defs| && w.rank(k) < w.rank(m) + 1
        ensures next.input[k] == w.input[k] || StaysOn(w, k, next.input[k])
      {
        SetUserRecords(defs, input, visible, x, v, k);
        NotMarked(w, visible, x, v, k, w.rank(m));
        assert next.input[k] == input[k];
      }
      CalcUnaffected(w, next, m);
    }

    lemma NotMarked(w: World, seen: seq<Tri>, x: nat, v: Tri, k: nat, bound: nat)
      requires Acyclic(w) && x < |w.defs| == |seen| && k < |w.defs| && w.rank(k) <= bound < w.rank(x)
      requires PickedIn(w.defs, x, v).Some? ==> w.defs[x].typ != Unknown
      requires PickedIn(w.defs, x, v).Some? && PickedIn(w.defs, x, v).value < |w.defs| ==> w.rank(PickedIn(w.defs, x, v).value) > bound
      ensures !Marks(w.defs, seen, x, v, k) && (PickedIn(w.defs, x, v).Some? ==> PickedIn(w.defs, x, v) != Some(k)) && k != x
    {
      hide SymbolBelow;
      var c := PickedIn(w.defs, x, v);
      if c.Some? {
        Family(w, x);
        if k in w.defs[c.value].members { MemberRanks(w, c.value, k); }
      }
    }

    lemma AllStay(w: World)
      requires Shape() && About(w) && Sound(w, Now(), {}) && MarksStay(None)
      ensures WellFormed(w) && MarksLeft(w, input, None)
    {
      hide Grows, LosesMark, Settled;
      SoundFacts(w, Now(), {});
      forall k | 0 <= k < |input|
        ensures input[k] == w.input[k] || StaysOn(w, k, input[k])
      {
        StoredMark(w, Now(), k);
      }
    }

    /** Setting x to v, and looking at the choice value m afterwards. */
    method SetKeepsPick(x: nat, v: Tri, m: nat, ghost w: World) returns (accepted: bool)
      requires Shape() && About(w) && Sound(w, Now(), {}) && MarksStay(None)
      requires m in valid && defs[m].choiceOf.Some? && defs[m].typ != Unknown && curr[m].tri == YES
      requires x in valid && w.rank(x) > w.rank(m) && defs[x].typ != Unknown
      requires PickedIn(defs, x, v).Some? && PickedIn(defs, x, v).value < |defs| ==> w.rank(PickedIn(defs, x, v).value) > w.rank(m)
      requires var next := AfterSet(w, input, visible, x, v); WellFormed(next) ==> ModulesAgree(next)
      modifies this
      ensures Shape() && m in valid && curr[m].tri == YES
    {
      PickStays(w, m, x, v);
      hide Sound, MarksStay, AfterSet, Calc, ModulesAgree, IsSet, NoneAppears, TakesEffect, NoVisibleMember, Grows, KnownDefs, Acyclic;
      var oldval := curr[x].tri;
      ghost var next := AfterSet(w, input, visible, x, v);
      accepted := SetTristateValue(x, v, w, true);
      if accepted && oldval != v {
        SoundFacts(next, Now(), {});
        ghost var before := Now();
        CalcValue(m, next, {}, true);
        SoundAfter(next, before, Now(), {}, w.rank(m) + 1);
        StoredMark(next, Now(), m);
      }
    }

    lemma StaysIsLeft(w: World, s: nat, v: Tri)
      requires Shape() && About(w) && Sound(w, Now(), {}) && s < |defs| && MarksStay(Remarked(defs, s, v))
      ensures WellFormed(w) && MarksLeft(w, input, Remarked(defs, s, v))
    {
      hide Grows, LosesMark, Settled;
      SoundFacts(w, Now(), {});
      forall k | 0 <= k < |input|
        ensures input[k] == w.input[k] || StaysOn(w, k, input[k])
             || (Remarked(defs, s, v) == Some(k) && w.defs[k].isChoice && input[k] == w.input[k].(given := false))
      {
        StoredMark(w, Now(), k);
      }
    }
  }

  lemma ChoiceIsMarked(defs: seq<Def>, input: seq<Input>, seen: seq<Tri>, s: nat)
    requires s < |defs| == |input| == |seen| && defs[s].choiceOf.Some? && defs[s].choiceOf.value < |defs|
    ensures SetUser(defs, input, seen, s, YES)[defs[s].choiceOf.value].given
  {
    SetUserRecords(defs, input, seen, s, YES, defs[s].choiceOf.value);
  }

  lemma InputsKept(defs: seq<Def>, a: State, b: State)
    requires Grows(defs, a, b, {}, {})
    ensures |a.input| == |b.input| == |defs| && forall k :: 0 <= k < |defs| ==> InputKept(defs[k], a.input[k], b.input[k])
  {
  }

  lemma AllMembersKnown(defs: seq<Def>, c: nat)
    requires KnownDefs(defs) && c < |defs|
    ensures forall m :: m in defs[c].members ==> m < |defs|
  {
    assert defs[c] in defs;
  }

  lemma SoundFacts(w: World, t: State, busy: set<nat>)
    requires Sound(w, t, busy)
    ensures Acyclic(w) && SameSizes(w.defs, t) && t.mv == w.mv
    ensures w.modules in t.valid && w.modules !in busy ==> ModulesAgree(w)
  {
  }

  /** A choice whose stored input is not the one it was calculated with has lost its mark. */
  lemma StoredMark(w: World, t: State, k: nat)
    requires Sound(w, t, {}) && k < |w.defs|
    ensures WellFormed(w) && (t.input[k] == w.input[k] || (k in t.valid && LosesMark(w, k) && t.input[k] == w.input[k].(given := false)))
    ensures k in t.valid ==> (w.defs[k].isChoice ==> t.input[k].given == (w.input[k].given && !LosesMark(w, k)))
    ensures k in t.valid ==> t.curr[k] == Calc(w, k).value && (w.defs[k].typ != Unknown ==> t.rev[k] == Calc(w, k).rev)
    ensures w.defs[k].isChoice && w.defs[k].typ != Unknown ==> HasTri(w.defs[k]) && w.defs[k].choiceOf.None?
    ensures LosesMark(w, k) ==> w.defs[k].isChoice && w.defs[k].typ != Unknown && w.input[k].given && Calc(w, k).value.tri == YES
    ensures k in t.valid && w.defs[k].isChoice && w.defs[k].typ != Unknown && Calc(w, k).value.tri == YES ==>
      t.input[k].given || Calc(w, k).rev == YES || LosesMark(w, k)
  {
    hide SymbolBelow, ModulesAgree;
    assert InputKept(w.defs[k], w.input[k], t.input[k]);
    if k in t.valid { assert Settled(w, t, k) && MembersReady(w, t, k); }
    if w.defs[k].isChoice && w.defs[k].typ != Unknown {
      ChoiceIsPlain(w, k);
      if Calc(w, k).value.tri == YES { ChoiceOnMeans(w, k); }
    }
  }

  /** A choice is on because it is selected or because the user said so. */
  lemma ChoiceOnMeans(w: World, c: nat)
    requires c < |w.defs| == |w.input| && w.defs[c].isChoice && HasTri(w.defs[c]) && w.defs[c].choiceOf.None?
    requires Calc(w, c).value.tri == YES
    ensures w.input[c].given || Calc(w, c).rev == YES
  {
    ChoiceTri(w, c, Calc(w, c).visible, Calc(w, c).rev);
  }

  lemma InputIsLeft(w: World, t: State)
    requires Sound(w, t, {})
    ensures WellFormed(w) && t.input == Left(w, t.valid)
  {
    SoundFacts(w, t, {});
    hide Sound, LosesMark, SymbolBelow, ModulesAgree, Left;
    forall k: nat | k < |w.defs|
      ensures t.input[k] == Left(w, t.valid)[k]
    {
      StoredMark(w, t, k);
      LeftAt(w, t.valid, k);
    }
    assert |t.input| == |Left(w, t.valid)|;
  }

  lemma LeftAt(w: World, valid: set<nat>, k: nat)
    requires WellFormed(w) && k < |w.defs|
    ensures Left(w, valid)[k] == if k in valid && LosesMark(w, k) then w.input[k].(given := false) else w.input[k]
  {
    hide LosesMark;
  }

  /** The world of the stored input is acyclic as well. */
  lemma StoredAcyclic(w: World, t: State)
    requires Sound(w, t, {})
    ensures Acyclic(w.(input := t.input))
  {
    hide SymbolBelow, ModulesAgree, Settled, MembersReady;
    var x := w.(input := t.input);
    forall k: nat | k < |w.defs|
      ensures SymbolBelow(x, k)
    {
      assert SymbolBelow(w, k) && InputKept(w.defs[k], w.input[k], t.input[k]);
      SameBelow(w, x, k);
    }
  }

  lemma StoredAgrees(w: World, t: State, s: nat, v: Tri)
    requires Sound(w, t, {}) && KnownDefs(w.defs) && s < |w.defs| && w.defs[s].typ != Unknown
    ensures Acyclic(w.(input := t.input)) && Acyclic(AfterSet(w, t.input, t.visible, s, v))
  {
    StoredAcyclic(w, t);
    ChoiceKnown(w.defs, s);
    hide SymbolBelow, Sound;
    SoundFacts(w, t, {});
    SetUserAgrees(w.(input := t.input), t.input, t.visible, s, v);
  }

  lemma SetUserKeepsSizes(defs: seq<Def>, t: State, s: nat, v: Tri)
    requires SameSizes(defs, t) && s < |defs|
    ensures SameSizes(defs, t.(input := SetUser(defs, t.input, t.visible, s, v)))
  {
  }

  lemma NewValueIsThere(w: World, t: State, now: seq<Input>, seen: seq<Tri>, s: nat, v: Tri)
    requires Acyclic(w) && s < |w.defs| == |seen| && Takes(w, s) && WithinRange(w, s, v)
    requires MarksLeft(w, now, Remarked(w.defs, s, v))
    requires ValuesRight(AfterSet(w, now, seen, s, v), t, {}) && s in t.valid
    ensures |t.curr| == |w.defs| && (t.curr[s].tri == v <==> !(w.defs[s].isChoice && v == YES && NoVisibleMember(w, s)))
  {
    hide SymbolBelow, WithinRange, NoVisibleMember;
    SetUserTakesEffect(w, now, seen, s, v);
  }

  lemma NewValueExactly(w: World, t: State, now: seq<Input>, seen: seq<Tri>, s: nat, v: Tri)
    requires |now| == |w.defs| == |seen| && s < |w.defs| && Acyclic(w.(input := now)) && HasTri(w.defs[s])
    requires ValuesRight(AfterSet(w, now, seen, s, v), t, {}) && s in t.valid && MayTake(AfterSet(w, now, seen, s, v), s, v)
    ensures |t.curr| == |w.defs| && (t.curr[s].tri == v <==> TakesEffect(w.(input := now), s, v))
  {
    hide SymbolBelow, TakesEffect;
    SetTakesEffectExactly(w.(input := now), seen, s, v);
  }

  lemma SoundAfter(w: World, a: State, b: State, busy: set<nat>, bound: nat)
    requires Right(w, a, b, busy, bound)
    ensures Sound(w, b, busy)
  {
  }

  lemma KeepsValues(defs: seq<Def>, a: State, b: State)
    requires Grows(defs, a, b, {}, {})
    ensures SameSizes(defs, a) && SameSizes(defs, b)
    ensures a.valid <= b.valid && forall k :: k in a.valid ==> b.curr[k] == a.curr[k]
  {
  }

  /** The world after a user value has been set in a table with the given input. */
  ghost function AfterSet(w: World, now: seq<Input>, seen: seq<Tri>, s: nat, v: Tri): World {
    if s < |w.defs| == |now| == |seen| then w.(input := SetUser(w.defs, now, seen, s, v)) else w
  }

  /** A choice value is bounded by its choice. */
  ghost predicate Takes(w: World, s: nat) {
    s < |w.defs| == |w.input| && (w.defs[s].choiceOf.Some? ==> w.defs[s].choiceOf.value < |w.defs| && BoundedByChoice(w, s))
  }

  /** The same where it matters for setting the symbol to t. */
  ghost predicate MayTake(w: World, s: nat, t: Tri) {
    && s < |w.defs| == |w.input|
    && (w.defs[s].choiceOf.Some? ==> w.defs[s].choiceOf.value < |w.defs| && (t == YES ==> BoundedByChoice(w, s)))
  }

  lemma AllSettled(w: World, t: State)
    requires Sound(w, t, {})
    ensures forall k :: k in t.valid ==> Settled(w, t, k)
  {
  }

  lemma ShownBySymbol(d: Def, n: nat)
    requires d.defaults == [] && d.dirDep.None? && d.revDep.None? && 1 < n
    requires d.prompts == [] || d.prompts == [None] || d.prompts == [Some(Symbol(Var(1, Boolean)))]
    requires (forall m :: m in d.members ==> m < n) && (d.choiceOf.Some? ==> d.choiceOf.value < n)
    ensures KnownDef(d, n)
  {
  }

  lemma NewMemberKnown(w: World)
    requires NewMember(w)
    ensures KnownDefs(NewMemberDefs()) && |NewMemberDefs()| == |NewMemberInput()| == 5
    ensures forall k :: 0 <= k < 5 && NewMemberInput()[k].pick.Some? ==> NewMemberInput()[k].pick.value < 5
    ensures NewMemberDefs()[4].typ == Boolean && NewMemberDefs()[4].choiceOf == None && !NewMemberDefs()[4].isChoice
    ensures w.defs == NewMemberDefs() && w.input == NewMemberInput() && w.modules == 0 && w.mv == NO
  {
    var defs := NewMemberDefs();
    ShownBySymbol(defs[0], 5);
    ShownBySymbol(defs[1], 5);
    ShownBySymbol(defs[2], 5);
    ShownBySymbol(defs[3], 5);
    ShownBySymbol(defs[4], 5);
    hide KnownDef;
    assert forall d :: d in defs ==> d == defs[0] || d == defs[1] || d == defs[2] || d == defs[3] || d == defs[4];
    assert forall c :: 0 <= c < 5 ==> defs[c].members == if c == 1 then [2, 3] else [];
  }

  /** The user sets a symbol to y, which is accepted, but the choice that shows it has lost its mark:
      the recalculation turns off the choice, and the symbol is n. */
  method SetWithoutEffect(ghost w: World) returns (t: Table, accepted: bool)
    requires NewMember(w)
    ensures accepted && t.defs == w.defs && |t.curr| == |w.defs| == 5 && t.curr[4].tri == NO
  {
    NewMemberKnown(w);
    NewMemberAcyclic(w);
    NewMemberValues(w, w);
    hide *;
    t := new Table(NewMemberDefs(), 0, NewMemberInput(), NO);
    accepted := SetAfterLoss(t, w);
  }

  /** The state of the table before the set, and what comes after it. */
  lemma LostAndUndone(w: World, t: State)
    requires NewMember(w) && Sound(w, t, {}) && 1 in t.valid && 4 in t.valid
    ensures |w.defs| == |w.input| == |t.curr| == |t.visible| == 5 && WithinRange(w, 4, YES) && t.curr[4].tri == NO
    ensures var v := AfterSet(w, t.input, t.visible, 4, YES);
      WellFormed(v) && ModulesAgree(v) && Calc(v, 1).value.tri == NO && Calc(v, 4).value.tri == NO
  {
    NewMemberKnown(w);
    SoundFacts(w, t, {});
    AcceptedWithoutEffect(w, t.visible);
    hide Sound, LosesMark, Left, WithinRange, ModulesAgree, SetUser, NewMember, Acyclic;
    InputIsLeft(w, t);
    StoredMark(w, t, 4);
  }

  method SetAfterLoss(t: Table, ghost w: World) returns (accepted: bool)
    requires NewMember(w) && t.Shape() && t.About(w) && t.input == w.input && t.modulesVal == w.mv && t.valid == {}
    requires Acyclic(w) && ModulesAgree(w) && |t.defs| == 5 && t.defs[4].typ == Boolean
    modifies t
    ensures accepted && t.Shape() && |t.curr| == 5 && t.curr[4].tri == NO
  {
    t.FreshSound(w);
    hide *;
    t.CalcAll([1, 4], w, true);
    accepted := SetLast(t, w);
  }

  method SetLast(t: Table, ghost w: World) returns (accepted: bool)
    requires NewMember(w) && t.Shape() && t.About(w) && Sound(w, t.Now(), {}) && 1 in t.valid && 4 in t.valid
    requires |t.defs| == 5 && t.defs[4].typ == Boolean
    modifies t
    ensures accepted && t.Shape() && |t.curr| == 5 && t.curr[4].tri == NO
  {
    LostAndUndone(w, t.Now());
    t.InRangeRight(w, 4, YES);
    SizesOf(t.defs, t.Now());
    NewMemberKnown(w);
    hide KnownDefs, Acyclic, ModulesAgree, Sound, Settled, SetUser, Calc, WithinRange, TakesEffect, NewMember, Grows, Open, Takes, MayTake, AfterSet;
    hide SymbolBelow, MarksLeft, NewMemberDefs, NewMemberInput, LosesMark, SameSizes, EffectiveType;
    ghost var v := AfterSet(w, t.input, t.visible, 4, YES);
    accepted := t.SetTristateValue(4, YES, w, true);
    StoredMark(v, t.Now(), 4);
  }

  /** The user sets a choice to y, which is accepted, but it has no member to select and stays n. */
  method SetChoiceWithoutEffect(ghost w: World) returns (t: Table, accepted: bool)
    requires HiddenMember(w)
    ensures accepted && t.defs == w.defs && |t.curr| == |w.defs| && |w.defs| > 1 && t.curr[1].tri == NO
  {
    HiddenMemberKnown(w);
    HiddenMemberAcyclic(w);
    HiddenMemberValues(w, w);
    hide *;
    t := new Table(HiddenMemberDefs(), 0, HiddenMemberInput(), NO);
    t.FreshSound(w);
    t.CalcAll([1], w, true);
    accepted := SetChoice(t, w);
  }

  lemma HiddenMemberKnown(w: World)
    requires HiddenMember(w)
    ensures KnownDefs(HiddenMemberDefs()) && |HiddenMemberDefs()| == |HiddenMemberInput()| == 3
    ensures forall k :: 0 <= k < 3 ==> HiddenMemberInput()[k].pick.None?
    ensures HiddenMemberDefs()[1].typ == Boolean
    ensures w.defs == HiddenMemberDefs() && w.input == HiddenMemberInput() && w.modules == 0 && w.mv == NO
  {
    var defs := HiddenMemberDefs();
    ShownBySymbol(defs[0], 3);
    ShownBySymbol(defs[1], 3);
    HiddenIsKnown(defs[2]);
    hide KnownDef;
    assert forall d :: d in defs ==> d == defs[0] || d == defs[1] || d == defs[2];
    assert forall c :: 0 <= c < 3 ==> defs[c].members == if c == 1 then [2] else [];
  }

  lemma HiddenIsKnown(d: Def)
    requires d == HiddenMemberDefs()[2]
    ensures KnownDef(d, 3)
  {
  }

  method SetChoice(t: Table, ghost w: World) returns (accepted: bool)
    requires HiddenMember(w) && t.Shape() && t.About(w) && Sound(w, t.Now(), {}) && 1 in t.valid
    requires |t.defs| == 3 && t.defs[1].typ == Boolean
    modifies t
    ensures accepted && t.Shape() && |t.curr| == 3 && t.curr[1].tri == NO
  {
    OffInput(w, t.Now());
    ChoiceStaysOff(w, t.visible);
    t.InRangeRight(w, 1, YES);
    hide KnownDefs, Acyclic, ModulesAgree, Sound, Settled, SetUser, Calc, WithinRange, TakesEffect, HiddenMember, Grows, Open, Takes, MayTake, AfterSet;
    hide SymbolBelow, MarksLeft, HiddenMemberDefs, HiddenMemberInput, SameSizes, EffectiveType;
    ghost var v := AfterSet(w, t.input, t.visible, 1, YES);
    accepted := t.SetTristateValue(1, YES, w, true);
    StoredMark(v, t.Now(), 1);
  }

  /** A choice that is off keeps its mark, so the stored input is the one of the world. */
  lemma OffInput(w: World, t: State)
    requires HiddenMember(w) && Sound(w, t, {}) && 1 in t.valid
    ensures t.input == w.input && |t.visible| == |t.curr| == |w.defs| == 3 && t.curr[1].tri == NO
    ensures AfterSet(w, t.input, t.visible, 1, YES) == w.(input := SetUser(w.defs, w.input, t.visible, 1, YES))
  {
    SoundFacts(w, t, {});
    ChoiceStaysOff(w, t.visible);
    hide Sound, Acyclic, ModulesAgree, SetUser, WithinRange, Calc;
    forall k: nat | k < |w.defs|
      ensures t.input[k] == w.input[k]
    {
      StoredMark(w, t, k);
    }
    StoredMark(w, t, 1);
  }
}
