/** The lines of a configuration file: how support/kconfig/confdata.c prints a value and what
    conf_read_simple makes of a line. */
module ConfigLines {
  import opened Tristates
  import opened Wrappers
  import opened Expressions
  import opened Calculation
  import opened Escape

  const PREFIX := "CONFIG_"
  const NOT_SET := "is not set"

  /** conf_write_symbol with the printer of .config files. */
  function Line(d: Def, text: string): string {
    if HasTri(d) && text != "" && text[0] == 'n' then "# " + PREFIX + d.name + " " + NOT_SET + "\n"
    else if d.typ == String then PREFIX + d.name + "=" + [QUOTE] + Escaped(text) + [QUOTE] + "\n"
    else PREFIX + d.name + "=" + text + "\n"
  }

  // ---------- reading ----------

  /** strchr */
  function IndexOf(s: string, c: char): (r: Option<nat>)
    ensures r.Some? ==> r.value < |s| && s[r.value] == c && forall k :: 0 <= k < r.value ==> s[k] != c
    ensures r.None? ==> c !in s
  {
    if s == [] then None
    else if s[0] == c then Some(0)
    else
      var r := IndexOf(s[1..], c);
      if r.None? then None else Some(r.value + 1)
  }

  predicate StartsWith(s: string, p: string) {
    |p| <= |s| && s[..|p|] == p
  }

  /** sym_find: choices have no name. */
  function FindSym(defs: seq<Def>, name: string): (r: Option<nat>)
    ensures r.Some? ==> r.value < |defs| && defs[r.value].name == name && !defs[r.value].isChoice
  {
    if defs == [] then None
    else
      var r := FindSym(defs[..|defs| - 1], name);
      if r.Some? then r
      else if defs[|defs| - 1].name == name && !defs[|defs| - 1].isChoice then Some(|defs| - 1)
      else None
  }

  predicate IsDigit(c: char) {
    '0' <= c <= '9'
  }

  predicate IsHexDigit(c: char) {
    IsDigit(c) || 'a' <= c <= 'f' || 'A' <= c <= 'F'
  }

  /** sym_string_valid */
  predicate StringValid(typ: SymType, s: string) {
    match typ
    case String => true
    case Int =>
      var t := if s != "" && s[0] == '-' then s[1..] else s;
      t != "" && (t[0] == '0' ==> |t| == 1) && forall k :: 0 <= k < |t| ==> IsDigit(t[k])
    case Hex =>
      var t := if |s| >= 2 && s[0] == '0' && s[1] in {'x', 'X'} then s[2..] else s;
      t != "" && forall k :: 0 <= k < |t| ==> IsHexDigit(t[k])
    case _ => s != "" && s[0] in {'y', 'Y', 'm', 'M', 'n', 'N'}
  }

  /** conf_set_sym_val; none if it complains. */
  function SetVal(d: Def, u: Input, p: string): Option<Input> {
    match d.typ
    case Boolean => if p == "" then None else SetTri(u, p[0], false)
    case Tristate => if p == "" then None else SetTri(u, p[0], true)
    case String =>
      if p == "" || p[0] != QUOTE then Some(u)
      else
        var t := Unescaped(p[1..]);
        if t.None? then None else Some(u.(given := true, str := t.value))
    case Unknown => Some(u)
    case _ => if StringValid(d.typ, p) then Some(u.(given := true, str := p)) else None
  }

  function SetTri(u: Input, c: char, mod: bool): Option<Input> {
    if c == 'm' && mod then Some(u.(given := true, tri := MOD))
    else if c == 'y' then Some(u.(given := true, tri := YES))
    else if c == 'n' then Some(u.(given := true, tri := NO))
    else None
  }

  /** What reading the value of a choice value does to its choice. */
  function MarkChoiceOf(defs: seq<Def>, input: seq<Input>, s: nat): (r: seq<Input>)
    requires s < |defs| == |input|
    ensures |r| == |input|
  {
    var c := defs[s].choiceOf;
    if c.None? || c.value >= |defs| then input
    else
      var u, t := input[c.value], input[s].tri;
      var marked :=
        if t == MOD && u.tri == YES then u.(given := false)
        else if t == YES then u.(pick := Some(s))
        else u;
      input[c.value := marked.(tri := Max(u.tri, t))]
  }

  /** Without the end of the line. */
  function Chopped(s: string): string {
    var p := IndexOf(s, '\n');
    if p.None? then s
    else
      var t := s[..p.value];
      if t != "" && t[|t| - 1] == '\r' then t[..|t| - 1] else t
  }

  /** One round of the loop in conf_read_simple. */
  function ReadLine(defs: seq<Def>, input: seq<Input>, line: string): (r: seq<Input>)
    requires |defs| == |input|
    ensures |r| == |input|
  {
    if line != "" && line[0] == '#' then
      if |line| < 2 || !StartsWith(line[2..], PREFIX) then input
      else
        var rest := line[2 + |PREFIX|..];
        var p := IndexOf(rest, ' ');
        if p.None? || !StartsWith(rest[p.value + 1..], NOT_SET) then input
        else
          var s := FindSym(defs, rest[..p.value]);
          if s.None? then input
          else if HasTri(defs[s.value]) then
            MarkChoiceOf(defs, input[s.value := input[s.value].(given := true, tri := NO)], s.value)
          else MarkChoiceOf(defs, input, s.value)
    else if StartsWith(line, PREFIX) then
      var rest := line[|PREFIX|..];
      var p := IndexOf(rest, '=');
      if p.None? then input
      else
        var s := FindSym(defs, rest[..p.value]);
        if s.None? then input
        else
          var u := SetVal(defs[s.value], input[s.value], Chopped(rest[p.value + 1..]));
          if u.None? then input else MarkChoiceOf(defs, input[s.value := u.value], s.value)
    else input
  }

  /** The input that conf_read_simple starts from. */
  function Blank(defs: seq<Def>): (r: seq<Input>)
    ensures |r| == |defs|
  {
    seq(|defs|, (k: int) requires 0 <= k < |defs| => Input(defs[k].isChoice, NO, "", None))
  }

  function ReadAll(defs: seq<Def>, lines: seq<string>): (r: seq<Input>)
    ensures |r| == |defs|
  {
    if lines == [] then Blank(defs) else ReadLine(defs, ReadAll(defs, lines[..|lines| - 1]), lines[|lines| - 1])
  }

  // ---------- what was written is understood ----------

  predicate GoodName(name: string) {
    name != "" && forall k :: 0 <= k < |name| ==> name[k] !in {'=', ' ', '\n'}
  }

  /** Symbols other than choices have names, all different. */
  ghost predicate Named(defs: seq<Def>) {
    && (forall s :: 0 <= s < |defs| && !defs[s].isChoice ==> GoodName(defs[s].name))
    && (forall s, t :: 0 <= s < t < |defs| && !defs[s].isChoice && !defs[t].isChoice ==> defs[s].name != defs[t].name)
  }

  /** A text that a symbol of this type can have. */
  predicate Sane(d: Def, text: string) {
    match d.typ
    case Boolean => text == Name(NO) || text == Name(YES)
    case Tristate => text == Name(NO) || text == Name(YES) || text == Name(MOD)
    case String => '\n' !in text
    case Unknown => false
    case _ => StringValid(d.typ, text)
  }

  /** The input that says this. */
  function Given(d: Def, u: Input, text: string): Input {
    if HasTri(d) then u.(given := true, tri := if text == Name(YES) then YES else if text == Name(MOD) then MOD else NO)
    else u.(given := true, str := text)
  }

  lemma {:induction false} FindSymNamed(defs: seq<Def>, s: nat)
    requires Named(defs) && s < |defs| && !defs[s].isChoice
    ensures FindSym(defs, defs[s].name) == Some(s)
  {
    var init := defs[..|defs| - 1];
    assert Named(init);
    if s < |init| {
      assert init[s] == defs[s];
      FindSymNamed(init, s);
    } else {
      assert forall k :: 0 <= k < |init| ==> init[k] == defs[k];
      assert FindSym(init, defs[s].name).None?;
    }
  }

  lemma {:induction false} IndexOfIs(s: string, c: char, k: nat)
    requires k < |s| && s[k] == c && forall j :: 0 <= j < k ==> s[j] != c
    ensures IndexOf(s, c) == Some(k)
  {
  }

  lemma {:induction false} EscapedHasNoNewline(s: string)
    requires '\n' !in s
    ensures '\n' !in Escaped(s)
  {
    if s != [] {
      assert s[0] in s;
      forall k | 0 <= k < |s[1..]| ensures s[1..][k] != '\n' { assert s[1..][k] == s[k + 1]; }
      EscapedHasNoNewline(s[1..]);
    }
  }

  lemma ValidHasNoEnd(typ: SymType, text: string)
    requires typ in {Int, Hex} && StringValid(typ, text)
    ensures text != "" && '\n' !in text && '\r' !in text
  {
    var n := if typ == Int then (if text != "" && text[0] == '-' then 1 else 0)
             else if |text| >= 2 && text[0] == '0' && text[1] in {'x', 'X'} then 2 else 0;
    var t := text[n..];
    assert forall k :: n <= k < |text| ==> text[k] == t[k - n];
    assert forall k :: 0 <= k < |t| ==> IsHexDigit(t[k]);
  }

  lemma ChoppedLine(t: string)
    requires '\n' !in t && (t != "" ==> t[|t| - 1] != '\r')
    ensures Chopped(t + "\n") == t
  {
    var line := t + "\n";
    IndexOfIs(line, '\n', |t|);
    assert line[..|t|] == t;
  }

  lemma ReadsNotSet(defs: seq<Def>, input: seq<Input>, s: nat)
    requires |defs| == |input| && Named(defs) && s < |defs| && !defs[s].isChoice && HasTri(defs[s])
    ensures ReadLine(defs, input, "# " + PREFIX + defs[s].name + " " + NOT_SET + "\n")
         == MarkChoiceOf(defs, input[s := input[s].(given := true, tri := NO)], s)
  {
    var name := defs[s].name;
    var line := "# " + PREFIX + name + " " + NOT_SET + "\n";
    var rest := name + " " + NOT_SET + "\n";
    assert line[0] == '#' && line[2..][..|PREFIX|] == PREFIX;
    assert line[2 + |PREFIX|..] == rest;
    IndexOfIs(rest, ' ', |name|);
    assert rest[..|name|] == name && rest[|name| + 1..] == NOT_SET + "\n";
    assert (NOT_SET + "\n")[..|NOT_SET|] == NOT_SET;
    FindSymNamed(defs, s);
    hide MarkChoiceOf, FindSym, IndexOf, Named;
    assert StartsWith(line[2..], PREFIX) && StartsWith(rest[|name| + 1..], NOT_SET);
  }

  lemma ReadsValue(defs: seq<Def>, input: seq<Input>, s: nat, val: string)
    requires |defs| == |input| && Named(defs) && s < |defs| && !defs[s].isChoice
    requires '\n' !in val && (val != "" ==> val[|val| - 1] != '\r')
    ensures ReadLine(defs, input, PREFIX + defs[s].name + "=" + val + "\n")
         == (var u := SetVal(defs[s], input[s], val);
             if u.None? then input else MarkChoiceOf(defs, input[s := u.value], s))
  {
    var name := defs[s].name;
    var line := PREFIX + name + "=" + val + "\n";
    var rest := name + "=" + (val + "\n");
    assert line[0] == PREFIX[0] && line[..|PREFIX|] == PREFIX;
    assert line[|PREFIX|..] == rest;
    IndexOfIs(rest, '=', |name|);
    assert rest[..|name|] == name && rest[|name| + 1..] == val + "\n";
    FindSymNamed(defs, s);
    ChoppedLine(val);
  }

  lemma NamesOf()
    ensures Name(NO) == "n" && Name(MOD) == "m" && Name(YES) == "y"
    ensures Name(NO) != Name(MOD) && Name(NO) != Name(YES) && Name(MOD) != Name(YES)
  {
    assert Name(NO)[0] != Name(MOD)[0] && Name(NO)[0] != Name(YES)[0] && Name(MOD)[0] != Name(YES)[0];
  }

  lemma ReadsString(defs: seq<Def>, input: seq<Input>, s: nat, text: string)
    requires |defs| == |input| && Named(defs) && s < |defs| && !defs[s].isChoice && Sane(defs[s], text) && defs[s].typ == String
    ensures ReadLine(defs, input, Line(defs[s], text)) == MarkChoiceOf(defs, input[s := Given(defs[s], input[s], text)], s)
  {
    hide ReadLine, MarkChoiceOf, Escaped, Unescaped;
    var d := defs[s];
    var val := [QUOTE] + Escaped(text) + [QUOTE];
    EscapedHasNoNewline(text);
    assert Line(d, text) == PREFIX + d.name + "=" + val + "\n";
    assert val[1..] == Escaped(text) + [QUOTE] + [];
    EscapeRoundTrip(text, []);
    ReadsValue(defs, input, s, val);
  }

  /** A line that was printed for a symbol gives this symbol the printed value, and marks its choice. */
  lemma ReadsBack(defs: seq<Def>, input: seq<Input>, s: nat, text: string)
    requires |defs| == |input| && Named(defs) && s < |defs| && !defs[s].isChoice && Sane(defs[s], text)
    ensures ReadLine(defs, input, Line(defs[s], text)) == MarkChoiceOf(defs, input[s := Given(defs[s], input[s], text)], s)
  {
    hide ReadLine, MarkChoiceOf, Escaped, Unescaped;
    var d := defs[s];
    NamesOf();
    if HasTri(d) {
      if text[0] == 'n' {
        ReadsNotSet(defs, input, s);
      } else {
        ReadsValue(defs, input, s, text);
      }
    } else if d.typ == String {
      ReadsString(defs, input, s, text);
    } else {
      ValidHasNoEnd(d.typ, text);
      ReadsValue(defs, input, s, text);
    }
  }
}
