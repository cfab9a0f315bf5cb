/** The expression parser and printer of support/scripts/kconfiglib.py, on tokens. */
module ExprParser {
  import opened Tristates
  import opened Wrappers

  /** A symbol, known by its name, or a string. */
  datatype Operand = Sym(name: string) | Str(text: string)

  /** The symbol m */
  const M: Operand := Sym("m")
  const MODULES: Operand := Sym("MODULES")

  datatype Op = And | Or

  datatype Token =
    | Item(operand: Operand) | Open | Close | Bang | Equals | Differs | Both | Either
    | Keyword(number: nat)

  /** An expression. AND and OR take lists. The second operand of a relation is whatever token came
      next, if any: the parser does not look at it. */
  datatype Tree =
    | Leaf(operand: Operand)
    | Neg(arg: Tree)
    | List(op: Op, args: seq<Tree>)
    | Rel(equal: bool, lhs: Operand, rhs: Option<Token>)

  function OpToken(op: Op): Token {
    if op == And then Both else Either
  }

  // ---------- the parser as a function ----------

  /** What was parsed and what is left. */
  datatype Parsed<T> = Parsed(result: T, rest: seq<Token>)

  predicate At(ts: seq<Token>, t: Token) {
    ts != [] && ts[0] == t
  }

  /** In a relation the symbol m stands for its name. */
  function NoM(o: Operand): Operand {
    if o == M then Str("m") else o
  }

  function NoMToken(t: Option<Token>): Option<Token> {
    if t.Some? && t.value.Item? then Some(Item(NoM(t.value.operand))) else t
  }

  function Next(ts: seq<Token>): Option<Token> {
    if ts == [] then None else Some(ts[0])
  }

  function Drop(ts: seq<Token>): seq<Token> {
    if ts == [] then ts else ts[1..]
  }

  /** _parse_expr_2 for Or and _parse_or_term for And */
  function ListFrom(op: Op, ts: seq<Token>, m: bool): (r: Option<Parsed<Tree>>)
    ensures r.Some? ==> |r.value.rest| < |ts|
    decreases |ts|, if op == Or then 5 else 3
  {
    var first := OperandFrom(op, ts, m);
    if first.None? then None
    else
      var more := MoreFrom(op, first.value.rest, m);
      if more.None? then None
      else Some(Parsed(ListOf(op, [first.value.result] + more.value.result), more.value.rest))
  }

  function ListOf(op: Op, terms: seq<Tree>): Tree
    requires terms != []
  {
    if |terms| == 1 then terms[0] else List(op, terms)
  }

  function OperandFrom(op: Op, ts: seq<Token>, m: bool): (r: Option<Parsed<Tree>>)
    ensures r.Some? ==> |r.value.rest| < |ts|
    decreases |ts|, if op == Or then 4 else 2
  {
    if op == Or then ListFrom(And, ts, m) else FactorFrom(ts, m)
  }

  /** The operands that follow while the next token is the operator. */
  function MoreFrom(op: Op, ts: seq<Token>, m: bool): (r: Option<Parsed<seq<Tree>>>)
    ensures r.Some? ==> |r.value.rest| <= |ts|
    decreases |ts|, 0
  {
    if !At(ts, OpToken(op)) then Some(Parsed([], ts))
    else
      var next := OperandFrom(op, ts[1..], m);
      if next.None? then None
      else
        var more := MoreFrom(op, next.value.rest, m);
        if more.None? then None else Some(Parsed([next.value.result] + more.value.result, more.value.rest))
  }

  /** _parse_factor */
  function FactorFrom(ts: seq<Token>, m: bool): (r: Option<Parsed<Tree>>)
    ensures r.Some? ==> |r.value.rest| < |ts|
    decreases |ts|, 1
  {
    if At(ts, Open) then
      var inner := ListFrom(Or, ts[1..], m);
      if inner.None? || !At(inner.value.rest, Close) then None
      else Some(Parsed(inner.value.result, inner.value.rest[1..]))
    else if At(ts, Bang) then
      var arg := FactorFrom(ts[1..], m);
      if arg.None? then None else Some(Parsed(Neg(arg.value.result), arg.value.rest))
    else if ts == [] || !ts[0].Item? then None
    else
      var o, rest := ts[0].operand, ts[1..];
      if !At(rest, Equals) && !At(rest, Differs) then
        Some(Parsed(if m && (o == M || o == Str("m")) then List(And, [Leaf(Str("m")), Leaf(MODULES)]) else Leaf(o), rest))
      else
        Some(Parsed(Rel(rest[0] == Equals, NoM(o), NoMToken(Next(rest[1..]))), Drop(rest[1..])))
  }

  /** The terms so far in front of those still to come. */
  function After(terms: seq<Tree>, more: Option<Parsed<seq<Tree>>>): Option<Parsed<seq<Tree>>> {
    if more.None? then None else Some(Parsed(terms + more.value.result, more.value.rest))
  }

  lemma AfterStep(terms: seq<Tree>, t: Tree, more: Option<Parsed<seq<Tree>>>)
    ensures After(terms, After([t], more)) == After(terms + [t], more)
  {
    if more.Some? { assert terms + ([t] + more.value.result) == terms + [t] + more.value.result; }
  }

  lemma ListCases(op: Op, ts: seq<Token>, m: bool)
    ensures var first := OperandFrom(op, ts, m);
      && (first.None? ==> ListFrom(op, ts, m) == None)
      && (first.Some? ==>
            var all := After([first.value.result], MoreFrom(op, first.value.rest, m));
            ListFrom(op, ts, m) == if all.None? then None else Some(Parsed(ListOf(op, all.value.result), all.value.rest)))
  {
  }

  lemma MoreCases(op: Op, ts: seq<Token>, m: bool)
    ensures !At(ts, OpToken(op)) ==> MoreFrom(op, ts, m) == Some(Parsed([], ts))
    ensures At(ts, OpToken(op)) ==>
      var next := OperandFrom(op, ts[1..], m);
      MoreFrom(op, ts, m) == if next.None? then None else After([next.value.result], MoreFrom(op, next.value.rest, m))
  {
  }

  // ---------- the parser as it runs ----------

  /** _Feed */
  class Feed {
    const items: seq<Token>
    var i: nat

    ghost predicate Valid()
      reads this
    {
      i <= |items|
    }

    ghost function Left(): seq<Token>
      reads this
      requires Valid()
    {
      items[i..]
    }

    constructor (items: seq<Token>)
      ensures Valid() && this.items == items && Left() == items
    {
      this.items, i := items, 0;
    }

    method GetNext() returns (t: Option<Token>)
      requires Valid()
      modifies this
      ensures Valid() && t == Next(old(Left())) && Left() == Drop(old(Left()))
    {
      if i >= |items| { return None; }
      t := Some(items[i]);
      i := i + 1;
    }

    method PeekNext() returns (t: Option<Token>)
      requires Valid()
      ensures t == Next(Left())
    {
      t := if i >= |items| then None else Some(items[i]);
    }

    method Check(t: Token) returns (found: bool)
      requires Valid()
      modifies this
      ensures Valid() && found == At(old(Left()), t)
      ensures Left() == if found then old(Left())[1..] else old(Left())
    {
      found := i < |items| && items[i] == t;
      if found { i := i + 1; }
    }

    /** The outcome of a parsing method is the one of the function; none means that it raised an
        error. */
    ghost predicate Outcome<A(!new)>(r: Option<A>, spec: Option<Parsed<A>>)
      reads this
      requires Valid()
    {
      r.Some? == spec.Some? && (r.Some? ==> r.value == spec.value.result && Left() == spec.value.rest)
    }

    /** _parse_expr_2 */
    method ParseExpr2(m: bool) returns (r: Option<Tree>)
      requires Valid()
      modifies this
      ensures Valid() && Outcome(r, ListFrom(Or, old(Left()), m))
      decreases |Left()|, 5
    {
      hide FactorFrom, ListFrom, MoreFrom;
      ghost var ts := Left();
      ListCases(Or, ts, m);
      var term := ParseOrTerm(m);
      if term.None? { return None; }
      var terms := [term.value];
      ghost var before := Left();
      ghost var spec := After(terms, MoreFrom(Or, before, m));
      var more := Check(Either);
      while more
        invariant Valid() && terms != [] && |Left()| < |ts|
        invariant more == At(before, Either) && Left() == if more then before[1..] else before
        invariant spec == After(terms, MoreFrom(Or, before, m))
        decreases |Left()|
      {
        MoreCases(Or, before, m);
        term := ParseOrTerm(m);
        if term.None? { return None; }
        before := Left();
        AfterStep(terms, term.value, MoreFrom(Or, before, m));
        terms := terms + [term.value];
        more := Check(Either);
      }
      MoreCases(Or, before, m);
      assert terms + [] == terms;
      r := Some(ListOf(Or, terms));
    }

    /** _parse_or_term */
    method ParseOrTerm(m: bool) returns (r: Option<Tree>)
      requires Valid()
      modifies this
      ensures Valid() && Outcome(r, ListFrom(And, old(Left()), m))
      decreases |Left()|, 3
    {
      hide FactorFrom, ListFrom, MoreFrom;
      ghost var ts := Left();
      ListCases(And, ts, m);
      var term := ParseFactor(m);
      if term.None? { return None; }
      var terms := [term.value];
      ghost var before := Left();
      ghost var spec := After(terms, MoreFrom(And, before, m));
      var more := Check(Both);
      while more
        invariant Valid() && terms != [] && |Left()| < |ts|
        invariant more == At(before, Both) && Left() == if more then before[1..] else before
        invariant spec == After(terms, MoreFrom(And, before, m))
        decreases |Left()|
      {
        MoreCases(And, before, m);
        term := ParseFactor(m);
        if term.None? { return None; }
        before := Left();
        AfterStep(terms, term.value, MoreFrom(And, before, m));
        terms := terms + [term.value];
        more := Check(Both);
      }
      MoreCases(And, before, m);
      assert terms + [] == terms;
      r := Some(ListOf(And, terms));
    }

    /** _parse_factor */
    method ParseFactor(m: bool) returns (r: Option<Tree>)
      requires Valid()
      modifies this
      ensures Valid() && Outcome(r, FactorFrom(old(Left()), m))
      decreases |Left()|, 1
    {
      hide ListFrom, MoreFrom, OperandFrom;
      var found := Check(Open);
      if found {
        r := ParseExpr2(m);
        if r.None? { return; }
        found := Check(Close);
        if !found { r := None; }
        return;
      }
      found := Check(Bang);
      if found {
        r := ParseFactor(m);
        if r.Some? { r := Some(Neg(r.value)); }
        return;
      }
      var t := GetNext();
      if t.None? || !t.value.Item? { return None; }
      var o := t.value.operand;
      var next := PeekNext();
      if next != Some(Equals) && next != Some(Differs) {
        if m && (o == M || o == Str("m")) { return Some(List(And, [Leaf(Str("m")), Leaf(MODULES)])); }
        return Some(Leaf(o));
      }
      var relation := GetNext();
      var second := GetNext();
      r := Some(Rel(relation == Some(Equals), NoM(o), NoMToken(second)));
    }
  }

  // ---------- the printer ----------

  /** precedence */
  function Precedence(op: Op): nat {
    if op == And then 1 else 0
  }

  predicate NoParens(op: Op, e: Tree) {
    e.List? ==> Precedence(op) <= Precedence(e.op)
  }

  function InParens(ts: seq<Token>): seq<Token> {
    [Open] + ts + [Close]
  }

  /** _expr_to_str_rec */
  function Print(e: Tree): seq<Token>
    decreases e, 1
  {
    match e
    case Leaf(o) => [Item(o)]
    case Neg(x) => [Bang] + if x.Leaf? then Print(x) else InParens(Print(x))
    case List(op, args) => if args == [] then [] else PrintArg(op, args[0]) + PrintMore(op, args[1..])
    case Rel(equal, a, b) => [Item(a), if equal then Equals else Differs] + if b.None? then [] else [b.value]
  }

  /** handle_sub_expr of _intersperse */
  function PrintArg(op: Op, e: Tree): seq<Token>
    decreases e, 2
  {
    if NoParens(op, e) then Print(e) else InParens(Print(e))
  }

  function PrintMore(op: Op, args: seq<Tree>): seq<Token>
    decreases args, 3
  {
    if args == [] then [] else [OpToken(op)] + PrintArg(op, args[0]) + PrintMore(op, args[1..])
  }

  function PrintList(op: Op, args: seq<Tree>): seq<Token>
    requires args != []
  {
    PrintArg(op, args[0]) + PrintMore(op, args[1..])
  }

  /** AND and OR have at least two operands, and relations relate operands. */
  predicate WellFormed(e: Tree) {
    match e
    case Leaf(_) => true
    case Neg(x) => WellFormed(x)
    case List(_, args) => |args| >= 2 && forall x :: x in args ==> WellFormed(x)
    case Rel(_, _, b) => b.Some? && b.value.Item?
  }

  // ---------- what the parser makes of it ----------

  /** Lists directly in lists of the same operator are merged into them. */
  function Flatten(e: Tree): Tree {
    match e
    case Neg(x) => Neg(Flatten(x))
    case List(op, args) => List(op, FlattenArgs(op, args))
    case _ => e
  }

  function FlattenArgs(op: Op, args: seq<Tree>): seq<Tree>
    decreases args
  {
    if args == [] then [] else Spread(op, Flatten(args[0])) + FlattenArgs(op, args[1..])
  }

  function Spread(op: Op, e: Tree): seq<Tree> {
    if e.List? && e.op == op then e.args else [e]
  }

  /** In relations the symbol m becomes its name. */
  function Quote(e: Tree): Tree {
    match e
    case Leaf(_) => e
    case Neg(x) => Neg(Quote(x))
    case List(op, args) => List(op, QuoteAll(args))
    case Rel(equal, a, b) => Rel(equal, NoM(a), NoMToken(b))
  }

  function QuoteAll(args: seq<Tree>): (r: seq<Tree>)
    ensures |r| == |args|
  {
    if args == [] then [] else [Quote(args[0])] + QuoteAll(args[1..])
  }

  /** No list directly in a list of the same operator. */
  predicate Flat(e: Tree) {
    match e
    case Leaf(_) => true
    case Neg(x) => Flat(x)
    case List(op, args) => |args| >= 2 && FlatArgs(op, args)
    case Rel(_, _, b) => b.Some? && b.value.Item?
  }

  predicate FlatArgs(op: Op, args: seq<Tree>)
    decreases args
  {
    args != [] ==> Flat(args[0]) && !(args[0].List? && args[0].op == op) && FlatArgs(op, args[1..])
  }

  lemma {:induction false} FlatArgsConcat(op: Op, a: seq<Tree>, b: seq<Tree>)
    requires FlatArgs(op, a) && FlatArgs(op, b)
    ensures FlatArgs(op, a + b)
  {
    if a == [] {
      assert a + b == b;
    } else {
      assert (a + b)[1..] == a[1..] + b;
      FlatArgsConcat(op, a[1..], b);
    }
  }

  lemma {:induction false} FlattenIsFlat(e: Tree)
    requires WellFormed(e)
    ensures Flat(Flatten(e))
    decreases e, 0
  {
    match e
    case Neg(x) => FlattenIsFlat(x);
    case List(op, args) => FlattenArgsIsFlat(op, args);
    case _ =>
  }

  lemma {:induction false} FlattenArgsIsFlat(op: Op, args: seq<Tree>)
    requires forall x :: x in args ==> WellFormed(x)
    ensures FlatArgs(op, FlattenArgs(op, args)) && |FlattenArgs(op, args)| >= |args|
    decreases args
  {
    if args != [] {
      assert args[0] in args && forall x :: x in args[1..] ==> x in args;
      FlattenIsFlat(args[0]);
      FlattenArgsIsFlat(op, args[1..]);
      FlatArgsConcat(op, Spread(op, Flatten(args[0])), FlattenArgs(op, args[1..]));
    }
  }

  lemma {:induction false} PrintMoreConcat(op: Op, a: seq<Tree>, b: seq<Tree>)
    ensures PrintMore(op, a + b) == PrintMore(op, a) + PrintMore(op, b)
  {
    if a == [] {
      assert a + b == b;
    } else {
      assert (a + b)[1..] == a[1..] + b;
      PrintMoreConcat(op, a[1..], b);
    }
  }

  /** Merging lists does not show in print. */
  lemma {:induction false} PrintFlatten(e: Tree)
    requires WellFormed(e)
    ensures Print(Flatten(e)) == Print(e)
    decreases e, 0
  {
    match e
    case Neg(x) => PrintFlatten(x);
    case List(op, args) =>
      FlattenArgsIsFlat(op, args);
      PrintFlattenArgs(op, args);
      PrintMoreIsList(op, args);
      PrintMoreIsList(op, FlattenArgs(op, args));
    case _ =>
  }

  lemma PrintMoreIsList(op: Op, args: seq<Tree>)
    requires args != []
    ensures PrintMore(op, args) == [OpToken(op)] + PrintList(op, args)
    ensures PrintList(op, args) == PrintMore(op, args)[1..]
  {
  }

  lemma {:induction false} PrintFlattenArgs(op: Op, args: seq<Tree>)
    requires forall x :: x in args ==> WellFormed(x)
    ensures PrintMore(op, FlattenArgs(op, args)) == PrintMore(op, args)
    decreases args
  {
    if args != [] {
      var e := args[0];
      assert e in args && forall x :: x in args[1..] ==> x in args;
      PrintFlatten(e);
      FlattenIsFlat(e);
      PrintFlattenArgs(op, args[1..]);
      PrintMoreConcat(op, Spread(op, Flatten(e)), FlattenArgs(op, args[1..]));
      PrintSpread(op, Flatten(e));
      assert PrintArg(op, Flatten(e)) == PrintArg(op, e);
    }
  }

  lemma PrintSpread(op: Op, e: Tree)
    requires Flat(e)
    ensures PrintMore(op, Spread(op, e)) == [OpToken(op)] + PrintArg(op, e)
  {
    if !(e.List? && e.op == op) {
      assert PrintMore(op, [e]) == [OpToken(op)] + PrintArg(op, e) + PrintMore(op, []);
    }
  }

  // ---------- parsing what was printed ----------

  /** What follows cannot be taken for a part of the expression. */
  predicate Stops(op: Op, rest: seq<Token>) {
    !At(rest, Equals) && !At(rest, Differs) && !At(rest, Both) && (op == Or ==> !At(rest, Either))
  }

  lemma {:induction false} FactorBack(f: Tree, rest: seq<Token>)
    requires Flat(f) && !f.List? && !At(rest, Equals) && !At(rest, Differs)
    ensures FactorFrom(Print(f) + rest, false) == Some(Parsed(Quote(f), rest))
    decreases f, 1
  {
    var ts := Print(f) + rest;
    match f
    case Leaf(o) =>
      assert ts[1..] == rest;
    case Rel(equal, a, b) =>
      assert ts == [Item(a), if equal then Equals else Differs, b.value] + rest;
      assert ts[1..][1..][1..] == rest;
    case Neg(x) =>
      if x.Leaf? {
        assert ts[1..] == Print(x) + rest;
        FactorBack(x, rest);
      } else {
        assert ts[1..] == InParens(Print(x)) + rest;
        ParensBack(x, rest);
      }
  }

  lemma {:induction false} ParensBack(f: Tree, rest: seq<Token>)
    requires Flat(f)
    ensures FactorFrom(InParens(Print(f)) + rest, false) == Some(Parsed(Quote(f), rest))
    decreases f, 10
  {
    var ts := InParens(Print(f)) + rest;
    assert ts[1..] == Print(f) + ([Close] + rest);
    assert ([Close] + rest)[1..] == rest;
    ExprBack(f, [Close] + rest);
  }

  /** An operand of op, printed with parentheses where they are needed. */
  lemma {:induction false} OperandBack(op: Op, f: Tree, rest: seq<Token>)
    requires Flat(f) && !(f.List? && f.op == op)
    requires !At(rest, Equals) && !At(rest, Differs) && (op == Or ==> !At(rest, Both))
    ensures OperandFrom(op, PrintArg(op, f) + rest, false) == Some(Parsed(Quote(f), rest))
    decreases f, if op == And then 11 else 8
  {
    hide ListFrom, MoreFrom, FactorFrom;
    if !f.List? {
      FactorBack(f, rest);
      if op == Or { Single(And, Print(f) + rest, Quote(f), rest); }
    } else if op == And {
      ParensBack(f, rest);
    } else {
      ListBack(And, f.args, rest);
      assert Print(f) == PrintList(And, f.args);
    }
  }

  lemma {:induction false} MoreBack(op: Op, args: seq<Tree>, rest: seq<Token>)
    requires FlatArgs(op, args) && Stops(op, rest)
    ensures MoreFrom(op, PrintMore(op, args) + rest, false) == Some(Parsed(QuoteAll(args), rest))
    decreases args, 8
  {
    hide MoreFrom, PrintArg, OperandFrom;
    var ts := PrintMore(op, args) + rest;
    MoreCases(op, ts, false);
    if args == [] {
      assert ts == rest;
    } else {
      var tail := PrintMore(op, args[1..]) + rest;
      assert ts == [OpToken(op)] + (PrintArg(op, args[0]) + tail);
      assert ts[1..] == PrintArg(op, args[0]) + tail;
      OperandBack(op, args[0], tail);
      MoreBack(op, args[1..], rest);
    }
  }

  lemma {:induction false} ListBack(op: Op, args: seq<Tree>, rest: seq<Token>)
    requires args != [] && FlatArgs(op, args) && Stops(op, rest)
    ensures ListFrom(op, PrintList(op, args) + rest, false) == Some(Parsed(ListOf(op, QuoteAll(args)), rest))
    decreases args, 9
  {
    hide ListFrom, MoreFrom, PrintArg, OperandFrom;
    var ts, tail := PrintList(op, args) + rest, PrintMore(op, args[1..]) + rest;
    ListCases(op, ts, false);
    assert ts == PrintArg(op, args[0]) + tail;
    OperandBack(op, args[0], tail);
    MoreBack(op, args[1..], rest);
  }

  lemma {:induction false} ExprBack(f: Tree, rest: seq<Token>)
    requires Flat(f) && Stops(Or, rest)
    ensures ListFrom(Or, Print(f) + rest, false) == Some(Parsed(Quote(f), rest))
    decreases f, 9
  {
    if f.List? && f.op == Or {
      ListBack(Or, f.args, rest);
      assert Print(f) == PrintList(Or, f.args);
    } else {
      OperandBack(Or, f, rest);
      Single(Or, Print(f) + rest, Quote(f), rest);
    }
  }

  /** A list of one operand. */
  lemma Single(op: Op, ts: seq<Token>, e: Tree, rest: seq<Token>)
    requires OperandFrom(op, ts, false) == Some(Parsed(e, rest)) && !At(rest, OpToken(op))
    ensures ListFrom(op, ts, false) == Some(Parsed(e, rest))
  {
    hide ListFrom, MoreFrom, OperandFrom;
    ListCases(op, ts, false);
    MoreCases(op, rest, false);
    assert [e] + [] == [e];
  }

  /** Printing an expression and parsing the tokens gives the expression with its lists merged and
      the symbol m quoted in relations. */
  lemma PrintThenParse(e: Tree)
    requires WellFormed(e)
    ensures ListFrom(Or, Print(e), false) == Some(Parsed(Quote(Flatten(e)), []))
  {
    PrintFlatten(e);
    FlattenIsFlat(e);
    ExprBack(Flatten(e), []);
    assert Print(Flatten(e)) + [] == Print(e);
  }

  /** Equal print means equal up to this. */
  lemma PrintDetermines(e: Tree, f: Tree)
    requires WellFormed(e) && WellFormed(f) && Print(e) == Print(f)
    ensures Quote(Flatten(e)) == Quote(Flatten(f))
  {
    PrintThenParse(e);
    PrintThenParse(f);
  }

  // ---------- what is accepted ----------

  /** The tokens without parentheses, the symbol m quoted */
  function Skim(ts: seq<Token>): seq<Token> {
    if ts == [] then []
    else (if ts[0] == Open || ts[0] == Close then []
          else if ts[0].Item? then [Item(NoM(ts[0].operand))] else [ts[0]]) + Skim(ts[1..])
  }

  /** Read with `depth` open parentheses, the tokens never close one that is not open, and end with
      as many open ones. */
  predicate Balanced(ts: seq<Token>, depth: nat) {
    if ts == [] then depth == 0
    else if ts[0] == Open then Balanced(ts[1..], depth + 1)
    else if ts[0] == Close then depth > 0 && Balanced(ts[1..], depth - 1)
    else Balanced(ts[1..], depth)
  }

  lemma {:induction false} SkimConcat(a: seq<Token>, b: seq<Token>)
    ensures Skim(a + b) == Skim(a) + Skim(b)
  {
    if a == [] {
      assert a + b == b;
    } else {
      assert (a + b)[0] == a[0] && (a + b)[1..] == a[1..] + b;
      SkimConcat(a[1..], b);
    }
  }

  lemma {:induction false} BalancedConcat(a: seq<Token>, b: seq<Token>, depth: nat, more: nat)
    requires Balanced(a, depth) && Balanced(b, more)
    ensures Balanced(a + b, depth + more)
  {
    if a == [] {
      assert a + b == b;
    } else {
      assert (a + b)[0] == a[0] && (a + b)[1..] == a[1..] + b;
      BalancedConcat(a[1..], b, if a[0] == Open then depth + 1 else if a[0] == Close then depth - 1 else depth, more);
    }
  }

  /** ts is balanced and, apart from parentheses, what e prints as. */
  predicate Spells(ts: seq<Token>, e: seq<Token>) {
    Balanced(ts, 0) && Skim(ts) == Skim(e)
  }

  lemma SpellsConcat(a: seq<Token>, b: seq<Token>, e: seq<Token>, f: seq<Token>)
    requires Spells(a, e) && Spells(b, f)
    ensures Spells(a + b, e + f)
  {
    SkimConcat(a, b);
    SkimConcat(e, f);
    BalancedConcat(a, b, 0, 0);
  }

  lemma SpellsParens(ts: seq<Token>, e: seq<Token>)
    requires Spells(ts, e)
    ensures Spells(InParens(ts), e) && Spells(ts, InParens(e))
  {
    assert Balanced([Close], 1) by { assert [Close][1..] == []; }
    BalancedConcat(ts, [Close], 0, 1);
    assert InParens(ts)[1..] == ts + [Close] && InParens(e)[1..] == e + [Close];
    SkimConcat(ts, [Close]);
    SkimConcat(e, [Close]);
    assert Skim([Close]) == [] by { assert [Close][1..] == []; }
  }

  lemma SpellsToken(t: Token)
    requires t != Open && t != Close
    ensures Spells([t], [t])
  {
    assert [t][1..] == [];
  }

  /** The tokens that were read */
  function Read<T>(ts: seq<Token>, p: Parsed<T>): seq<Token>
    requires |p.rest| <= |ts|
  {
    ts[..|ts| - |p.rest|]
  }

  /** What was read is followed by the rest and spells the result. */
  predicate Accepted(ts: seq<Token>, r: Parsed<Tree>) {
    |r.rest| <= |ts| && Read(ts, r) + r.rest == ts && Spells(Read(ts, r), Print(r.result))
  }

  predicate AllAccepted(op: Op, ts: seq<Token>, r: Parsed<seq<Tree>>) {
    |r.rest| <= |ts| && Read(ts, r) + r.rest == ts && Spells(Read(ts, r), PrintMore(op, r.result))
  }

  /** Every relation relates operands. */
  predicate Related(e: Tree) {
    match e
    case Leaf(_) => true
    case Neg(x) => Related(x)
    case List(_, args) => forall x :: x in args ==> Related(x)
    case Rel(_, _, b) => b.Some? && b.value.Item?
  }

  lemma Follows(ts: seq<Token>, a: seq<Token>, mid: seq<Token>, b: seq<Token>, rest: seq<Token>)
    requires ts == a + mid && mid == b + rest
    ensures |rest| <= |ts| && ts[..|ts| - |rest|] == a + b && a + b + rest == ts
  {
  }

  lemma PrintArgSpells(op: Op, ts: seq<Token>, e: Tree)
    requires Spells(ts, Print(e))
    ensures Spells(ts, PrintArg(op, e))
  {
    if !NoParens(op, e) { SpellsParens(ts, Print(e)); }
  }

  /** An expression is only read from tokens that spell it, with balanced parentheses. */
  lemma {:induction false} ListAccepted(op: Op, ts: seq<Token>)
    requires var r := ListFrom(op, ts, false); r.Some? && Related(r.value.result)
    ensures Accepted(ts, ListFrom(op, ts, false).value)
    decreases |ts|, if op == Or then 5 else 3
  {
    hide ListFrom, MoreFrom, OperandFrom;
    ListCases(op, ts, false);
    var first := OperandFrom(op, ts, false).value;
    var more := MoreFrom(op, first.rest, false).value;
    var r := ListFrom(op, ts, false).value;
    assert r.result == ListOf(op, [first.result] + more.result);
    assert first.result in [first.result] + more.result;
    OperandAccepted(op, ts);
    MoreAccepted(op, first.rest);
    Follows(ts, Read(ts, first), first.rest, Read(first.rest, more), more.rest);
    PrintArgSpells(op, Read(ts, first), first.result);
    SpellsConcat(Read(ts, first), Read(first.rest, more), PrintArg(op, first.result), PrintMore(op, more.result));
    if more.result == [] {
      assert [first.result] + more.result == [first.result];
      SpellsConcat(Read(ts, first), Read(first.rest, more), Print(first.result), []);
      assert Print(first.result) + [] == Print(first.result);
    } else {
      assert ([first.result] + more.result)[1..] == more.result;
    }
  }

  lemma {:induction false} OperandAccepted(op: Op, ts: seq<Token>)
    requires var r := OperandFrom(op, ts, false); r.Some? && Related(r.value.result)
    ensures Accepted(ts, OperandFrom(op, ts, false).value)
    decreases |ts|, if op == Or then 4 else 2
  {
    if op == Or { ListAccepted(And, ts); } else { FactorAccepted(ts); }
  }

  lemma {:induction false} MoreAccepted(op: Op, ts: seq<Token>)
    requires var r := MoreFrom(op, ts, false); r.Some? && forall x :: x in r.value.result ==> Related(x)
    ensures AllAccepted(op, ts, MoreFrom(op, ts, false).value)
    decreases |ts|, 0
  {
    hide MoreFrom, OperandFrom;
    MoreCases(op, ts, false);
    var r := MoreFrom(op, ts, false).value;
    if !At(ts, OpToken(op)) {
      assert Read(ts, r) == [];
    } else {
      var next := OperandFrom(op, ts[1..], false).value;
      var more := MoreFrom(op, next.rest, false).value;
      assert r.result == [next.result] + more.result && r.rest == more.rest;
      assert next.result in r.result;
      OperandAccepted(op, ts[1..]);
      MoreAccepted(op, next.rest);
      Follows(ts[1..], Read(ts[1..], next), next.rest, Read(next.rest, more), more.rest);
      Follows(ts, [OpToken(op)], ts[1..], Read(ts[1..], next) + Read(next.rest, more), more.rest);
      PrintArgSpells(op, Read(ts[1..], next), next.result);
      SpellsConcat(Read(ts[1..], next), Read(next.rest, more), PrintArg(op, next.result), PrintMore(op, more.result));
      SpellsToken(OpToken(op));
      SpellsConcat([OpToken(op)], Read(ts[1..], next) + Read(next.rest, more),
                   [OpToken(op)], PrintArg(op, next.result) + PrintMore(op, more.result));
      assert [OpToken(op)] + (PrintArg(op, next.result) + PrintMore(op, more.result)) == PrintMore(op, r.result);
    }
  }

  lemma {:induction false} FactorAccepted(ts: seq<Token>)
    requires var r := FactorFrom(ts, false); r.Some? && Related(r.value.result)
    ensures Accepted(ts, FactorFrom(ts, false).value)
    decreases |ts|, 1
  {
    hide ListFrom;
    var r := FactorFrom(ts, false).value;
    if At(ts, Open) {
      var inner := ListFrom(Or, ts[1..], false).value;
      ListAccepted(Or, ts[1..]);
      SpellsParens(Read(ts[1..], inner), Print(inner.result));
      assert ts == InParens(Read(ts[1..], inner)) + r.rest;
    } else if At(ts, Bang) {
      var arg := FactorFrom(ts[1..], false).value;
      FactorAccepted(ts[1..]);
      SpellsToken(Bang);
      SpellsParens(Read(ts[1..], arg), Print(arg.result));
      var printed := if arg.result.Leaf? then Print(arg.result) else InParens(Print(arg.result));
      SpellsConcat([Bang], Read(ts[1..], arg), [Bang], printed);
      Follows(ts, [Bang], ts[1..], Read(ts[1..], arg), arg.rest);
    } else {
      TermAccepted(ts);
    }
  }

  lemma TermAccepted(ts: seq<Token>)
    requires !At(ts, Open) && !At(ts, Bang)
    requires var r := FactorFrom(ts, false); r.Some? && Related(r.value.result)
    ensures Accepted(ts, FactorFrom(ts, false).value)
  {
    hide ListFrom;
    var r := FactorFrom(ts, false).value;
    var o, rest := ts[0].operand, ts[1..];
    SpellsToken(ts[0]);
    if !At(rest, Equals) && !At(rest, Differs) {
      assert ts == [ts[0]] + rest && Read(ts, r) == [ts[0]];
    } else {
      var b := r.result.rhs.value.operand;
      assert rest[1..] != [] && rest[1..][0].Item? && r.rest == rest[2..];
      var was := rest[1];
      assert ts == [ts[0], rest[0], was] + r.rest && Read(ts, r) == [ts[0], rest[0], was];
      var printed := [Item(NoM(o)), rest[0], Item(b)];
      assert Print(r.result) == printed;
      assert [ts[0], rest[0], was][1..] == [rest[0], was] && [rest[0], was][1..] == [was] && [was][1..] == [];
      assert printed[1..] == [rest[0], Item(b)] && [rest[0], Item(b)][1..] == [Item(b)] && [Item(b)][1..] == [];
      assert Skim([was]) == Skim([Item(b)]) && Skim([rest[0], was]) == Skim([rest[0], Item(b)]);
      assert Balanced([was], 0) && Balanced([rest[0], was], 0);
    }
  }

  // ---------- values ----------

  /** What symbols evaluate to and what they compare as. The symbol m always has the value m. */
  datatype Valuation = Valuation(tri: string -> Tri, str: string -> string)

  function TriOf(o: Operand, v: Valuation): Tri {
    match o
    case Sym(name) => if o == M then MOD else v.tri(name)
    case Str(text) => if text == "y" then YES else if text == "m" then MOD else NO
  }

  function StrOf(o: Operand, v: Valuation): string {
    match o
    case Sym(name) => if o == M then "m" else v.str(name)
    case Str(text) => text
  }

  /** _eval_expr_2 of an expression whose relations relate operands */
  function Value(e: Tree, v: Valuation): Tri
    decreases e
  {
    match e
    case Leaf(o) => TriOf(o, v)
    case Neg(x) => Negate(Value(x, v))
    case List(op, args) => Values(op, args, v)
    case Rel(equal, a, b) =>
      if b.Some? && b.value.Item? then OfBool((StrOf(a, v) == StrOf(b.value.operand, v)) == equal) else NO
  }

  function Combine(op: Op, a: Tri, b: Tri): Tri {
    if op == And then Min(a, b) else Max(a, b)
  }

  function Values(op: Op, args: seq<Tree>, v: Valuation): Tri
    decreases args
  {
    if args == [] then (if op == And then YES else NO) else Combine(op, Value(args[0], v), Values(op, args[1..], v))
  }

  lemma {:induction false} ValuesConcat(op: Op, a: seq<Tree>, b: seq<Tree>, v: Valuation)
    ensures Values(op, a + b, v) == Combine(op, Values(op, a, v), Values(op, b, v))
  {
    if a == [] {
      assert a + b == b;
    } else {
      assert (a + b)[1..] == a[1..] + b;
      ValuesConcat(op, a[1..], b, v);
    }
  }

  lemma {:induction false} FlattenKeepsValue(e: Tree, v: Valuation)
    ensures Value(Flatten(e), v) == Value(e, v)
    decreases e
  {
    match e
    case Neg(x) => FlattenKeepsValue(x, v);
    case List(op, args) => FlattenArgsKeepValue(op, args, v);
    case _ =>
  }

  lemma {:induction false} FlattenArgsKeepValue(op: Op, args: seq<Tree>, v: Valuation)
    ensures Values(op, FlattenArgs(op, args), v) == Values(op, args, v)
    decreases args
  {
    if args != [] {
      var e := Flatten(args[0]);
      FlattenKeepsValue(args[0], v);
      FlattenArgsKeepValue(op, args[1..], v);
      ValuesConcat(op, Spread(op, e), FlattenArgs(op, args[1..]), v);
      if !(e.List? && e.op == op) { assert Values(op, [e], v) == Combine(op, Value(e, v), Values(op, [], v)); }
    }
  }

  lemma {:induction false} QuoteKeepsValue(e: Tree, v: Valuation)
    ensures Value(Quote(e), v) == Value(e, v)
    decreases e
  {
    match e
    case Neg(x) => QuoteKeepsValue(x, v);
    case List(op, args) => QuoteAllKeepsValue(op, args, v);
    case _ =>
  }

  lemma {:induction false} QuoteAllKeepsValue(op: Op, args: seq<Tree>, v: Valuation)
    ensures Values(op, QuoteAll(args), v) == Values(op, args, v)
    decreases args
  {
    if args != [] {
      QuoteKeepsValue(args[0], v);
      QuoteAllKeepsValue(op, args[1..], v);
      assert QuoteAll(args)[1..] == QuoteAll(args[1..]);
    }
  }

  /** A printed expression means the same when it is parsed again. */
  lemma PrintKeepsMeaning(e: Tree, v: Valuation)
    requires WellFormed(e)
    ensures var p := ListFrom(Or, Print(e), false);
      p.Some? && p.value.rest == [] && Value(p.value.result, v) == Value(e, v)
  {
    PrintThenParse(e);
    FlattenKeepsValue(e, v);
    QuoteKeepsValue(Flatten(e), v);
  }
}
