/** String values in a configuration file: sym_escape_string_value of support/kconfig/symbol.c, the
    unescaping of conf_set_sym_val in support/kconfig/confdata.c, and the replacements Kconfiglib
    uses for both. */
module Escape {
  import opened Wrappers

  const NUL: char := '\0'
  const QUOTE: char := '"'
  const BACKSLASH: char := '\\'

  predicate IsSpecial(c: char) {
    c == QUOTE || c == BACKSLASH
  }

  predicate NoNul(s: string) {
    forall i :: 0 <= i < |s| ==> s[i] != NUL
  }

  /** Every quote and backslash gets a backslash in front. */
  function Escaped(s: string): string {
    if s == [] then []
    else (if IsSpecial(s[0]) then [BACKSLASH, s[0]] else [s[0]]) + Escaped(s[1..])
  }

  function Specials(s: string): nat {
    if s == [] then 0 else (if IsSpecial(s[0]) then 1 else 0) + Specials(s[1..])
  }

  /** The text up to the first quote that is not escaped; none if there is no such quote. */
  function Unescaped(s: string): Option<string> {
    if s == [] then None
    else if s[0] == QUOTE then Some([])
    else if s[0] == BACKSLASH then
      if |s| == 1 then None else Prepend([s[1]], Unescaped(s[2..]))
    else Prepend([s[0]], Unescaped(s[1..]))
  }

  function Prepend(s: string, t: Option<string>): Option<string> {
    if t.None? then None else Some(s + t.value)
  }

  // ---------- the C functions ----------

  lemma {:induction false} EscapedConcat(s: string, t: string)
    ensures Escaped(s + t) == Escaped(s) + Escaped(t)
    ensures Specials(s + t) == Specials(s) + Specials(t)
  {
    if s == [] {
      assert s + t == t;
    } else {
      assert (s + t)[1..] == s[1..] + t;
      EscapedConcat(s[1..], t);
    }
  }

  lemma {:induction false} PlainIsUnchanged(s: string)
    requires forall i :: 0 <= i < |s| ==> !IsSpecial(s[i])
    ensures Escaped(s) == s && Specials(s) == 0
  {
    if s != [] { PlainIsUnchanged(s[1..]); }
  }

  lemma {:induction false} EscapedLength(s: string)
    ensures |Escaped(s)| == |s| + Specials(s)
  {
    if s != [] { EscapedLength(s[1..]); }
  }

  /** strcspn(s + p, "\"\\") */
  method Span(s: string, p: nat) returns (l: nat)
    requires p <= |s|
    ensures p + l <= |s| && (forall i :: p <= i < p + l ==> !IsSpecial(s[i]))
    ensures p + l < |s| ==> IsSpecial(s[p + l])
  {
    l := 0;
    while p + l < |s| && !IsSpecial(s[p + l])
      invariant p + l <= |s|
      invariant forall i :: p <= i < p + l ==> !IsSpecial(s[i])
    {
      l := l + 1;
    }
  }

  /** The first pass of sym_escape_string_value: quotes, terminator and one more per special. */
  method CountEscaped(s: string) returns (n: nat)
    ensures n == |s| + 3 + Specials(s)
  {
    n := |s| + 2 + 1;
    var p := 0;
    while true
      invariant 0 <= p <= |s|
      invariant n == |s| + 3 + Specials(s[..p])
      decreases |s| - p
    {
      var l := Span(s, p);
      SpanStep(s, p, l);
      p := p + l;
      if p == |s| {
        assert s[..p] == s;
        break;
      }
      n := n + 1;
      p := p + 1;
    }
  }

  lemma SpanStep(s: string, p: nat, l: nat)
    requires p + l <= |s| && forall i :: p <= i < p + l ==> !IsSpecial(s[i])
    ensures Escaped(s[..p + l]) == Escaped(s[..p]) + s[p..p + l]
    ensures Specials(s[..p + l]) == Specials(s[..p])
    ensures p + l < |s| && IsSpecial(s[p + l]) ==>
      Escaped(s[..p + l + 1]) == Escaped(s[..p + l]) + [BACKSLASH, s[p + l]] && Specials(s[..p + l + 1]) == Specials(s[..p + l]) + 1
  {
    assert s[..p + l] == s[..p] + s[p..p + l];
    EscapedConcat(s[..p], s[p..p + l]);
    PlainIsUnchanged(s[p..p + l]);
    if p + l < |s| && IsSpecial(s[p + l]) {
      var c := [s[p + l]];
      assert s[..p + l + 1] == s[..p + l] + c;
      EscapedConcat(s[..p + l], c);
      assert Escaped(c) == [BACKSLASH, s[p + l]] + Escaped(c[1..]);
    }
  }

  /** sym_escape_string_value: the buffer holds the quoted, escaped text and its terminator, and
      exactly fills the length that was counted. */
  method EscapeString(s: string) returns (res: array<char>)
    ensures fresh(res) && res[..] == [QUOTE] + Escaped(s) + [QUOTE, NUL]
  {
    var n := CountEscaped(s);
    EscapedLength(s);
    res := new char[n](_ => NUL);
    res[0] := QUOTE;
    var p, out := 0, 1;
    while p < |s|
      invariant 0 <= p <= |s| && res.Length == n
      invariant out == 1 + |Escaped(s[..p])| <= n - 2 && res[..out] == [QUOTE] + Escaped(s[..p])
    {
      p, out := EscapeChunk(res, s, p, out);
    }
    assert s[..p] == s;
    Append(res, out, [QUOTE, NUL]);
    assert res[..] == res[..out + 2];
  }

  /** One round of the copying loop: a run of ordinary characters, then an escaped one if any. */
  method EscapeChunk(res: array<char>, s: string, p: nat, out: nat) returns (p': nat, out': nat)
    requires p < |s| && out == 1 + |Escaped(s[..p])| && res.Length == |Escaped(s)| + 3
    requires out <= res.Length && res[..out] == [QUOTE] + Escaped(s[..p])
    modifies res
    ensures p < p' <= |s| && out' == 1 + |Escaped(s[..p'])| <= res.Length - 2
    ensures res[..out'] == [QUOTE] + Escaped(s[..p'])
  {
    hide Escaped, Specials;
    var l := Span(s, p);
    SpanStep(s, p, l);
    EscapedPrefix(s, p + l);
    Append(res, out, s[p..p + l]);
    p', out' := p + l, out + l;
    if p' < |s| {
      EscapedPrefix(s, p' + 1);
      Append(res, out', [BACKSLASH, s[p']]);
      p', out' := p' + 1, out' + 2;
    }
  }

  lemma EscapedPrefix(s: string, p: nat)
    requires p <= |s|
    ensures |Escaped(s[..p])| <= |Escaped(s)|
  {
    assert s == s[..p] + s[p..];
    EscapedConcat(s[..p], s[p..]);
  }

  /** strncat at a known end. */
  method Append(res: array<char>, at: nat, t: string)
    requires at + |t| <= res.Length
    modifies res
    ensures res[..at + |t|] == old(res[..at]) + t
  {
    var i := 0;
    while i < |t|
      invariant 0 <= i <= |t|
      invariant res[..at] == old(res[..at])
      invariant res[at..at + i] == t[..i]
    {
      res[at + i] := t[i];
      i := i + 1;
    }
    assert res[..at + |t|] == res[..at] + res[at..at + |t|];
  }

  /** The buffer holds t and its terminator from position i on. */
  ghost predicate Holds(buf: array<char>, i: nat, t: string)
    reads buf
  {
    && i + |t| < buf.Length && buf[i + |t|] == NUL
    && (forall k :: 0 <= k < |t| ==> t[k] == buf[i + k] && t[k] != NUL)
  }

  /** strpbrk(buf + i, "\"\\"), relative to i; the length of the text if there is none. */
  method Find(buf: array<char>, i: nat, ghost t: string) returns (l: nat)
    requires Holds(buf, i, t)
    ensures l <= |t| && (forall k :: 0 <= k < l ==> !IsSpecial(t[k]))
    ensures l < |t| ==> IsSpecial(t[l])
  {
    l := 0;
    while buf[i + l] != NUL && !IsSpecial(buf[i + l])
      invariant l <= |t|
      invariant forall k :: 0 <= k < l ==> !IsSpecial(t[k])
      decreases |t| - l
    {
      l := l + 1;
    }
  }

  /** memmove(buf + i, buf + i + 1, strlen(buf + i)): drops the first character. */
  method DropFirst(buf: array<char>, i: nat, ghost t: string)
    requires Holds(buf, i, t) && t != []
    modifies buf
    ensures Holds(buf, i, t[1..])
    ensures buf[..i] == old(buf[..i])
    ensures |t| == 1 ==> buf[i + 1] == NUL
  {
    var m := i;
    forall k | i <= k < i + |t|
      ensures buf[k] != NUL
    {
      assert t[k - i] == buf[i + (k - i)];
    }
    while buf[m] != NUL
      invariant i <= m <= i + |t|
      invariant buf[..i] == old(buf[..i])
      invariant forall k :: i <= k < m ==> buf[k] == old(buf[k + 1])
      invariant forall k :: m <= k < buf.Length ==> buf[k] == old(buf[k])
      decreases i + |t| - m
    {
      buf[m] := buf[m + 1];
      m := m + 1;
    }
    forall k | 0 <= k < |t| - 1
      ensures t[1..][k] == buf[i + k]
    {
      assert t[k + 1] == old(buf[i + (k + 1)]);
    }
  }

  /** A backslash goes, the character after it is kept unseen. */
  method TakeEscaped(buf: array<char>, j: nat, ghost t: string)
    requires Holds(buf, j, t) && t != []
    modifies buf
    ensures buf[..j] == old(buf[..j])
    ensures |t| == 1 ==> Holds(buf, j + 1, [])
    ensures |t| >= 2 ==> Holds(buf, j + 1, t[2..]) && buf[..j + 1] == old(buf[..j]) + [t[1]]
  {
    DropFirst(buf, j, t);
    if |t| >= 2 {
      assert t[1..][0] == buf[j + 0];
      forall k | 0 <= k < |t[2..]|
        ensures t[2..][k] == buf[j + 1 + k]
      {
        assert t[1..][k + 1] == buf[j + (k + 1)];
      }
    }
  }

  lemma {:induction false} UnescapedSkips(t: string, l: nat)
    requires l <= |t| && forall k :: 0 <= k < l ==> !IsSpecial(t[k])
    ensures Unescaped(t) == Prepend(t[..l], Unescaped(t[l..]))
  {
    if l == 0 {
      PrependNothing(Unescaped(t));
      assert t[..0] == [] && t[0..] == t;
    } else {
      UnescapedSkips(t[1..], l - 1);
      assert t[l..] == t[1..][l - 1..];
      if Unescaped(t[l..]).Some? {
        assert [t[0]] + (t[1..][..l - 1] + Unescaped(t[l..]).value) == t[..l] + Unescaped(t[l..]).value;
      }
    }
  }

  lemma PrependNothing(t: Option<string>)
    ensures Prepend([], t) == t
  {
    if t.Some? { assert [] + t.value == t.value; }
  }

  lemma PrependTwice(s: string, u: string, t: Option<string>)
    ensures Prepend(s, Prepend(u, t)) == Prepend(s + u, t)
  {
    if t.Some? { assert s + (u + t.value) == (s + u) + t.value; }
  }

  lemma UnescapedCases(front: string, t: string)
    ensures t == [] ==> Prepend(front, Unescaped(t)) == None
    ensures t != [] && t[0] == QUOTE ==> Prepend(front, Unescaped(t)) == Some(front)
    ensures t == [BACKSLASH] ==> Prepend(front, Unescaped(t)) == Prepend(front, Unescaped([])) == None
    ensures |t| >= 2 && t[0] == BACKSLASH ==> Unescaped(t) == Prepend([t[1]], Unescaped(t[2..]))
  {
    assert front + [] == front;
  }

  /** The loop of conf_set_sym_val over a text that followed an opening quote. On success the
      buffer starts with the value, terminated where its closing quote was. */
  method UnescapeInPlace(buf: array<char>, ghost text: string) returns (ok: bool, ghost n: nat)
    requires Holds(buf, 0, text)
    modifies buf
    ensures ok <==> Unescaped(text).Some?
    ensures ok ==> n < buf.Length && buf[..n] == Unescaped(text).value && buf[n] == NUL
  {
    hide Unescaped, Prepend;
    var i := 0;
    ghost var t := text;
    PrependNothing(Unescaped(text));
    while true
      invariant Holds(buf, i, t)
      invariant Unescaped(text) == Prepend(buf[..i], Unescaped(t))
      decreases |t|
    {
      var l := Find(buf, i, t);
      UnescapedSkips(t, l);
      PrependTwice(buf[..i], t[..l], Unescaped(t[l..]));
      UnescapedCases(buf[..i] + t[..l], t[l..]);
      var j := i + l;
      if buf[j] == NUL { return false, 0; }
      assert buf[..j] == buf[..i] + t[..l];
      if buf[j] == QUOTE {
        n := j;
        buf[j] := NUL;
        return true, n;
      }
      ghost var rest, front := t[l..], buf[..j];
      TakeEscaped(buf, j, rest);
      i := j + 1;
      if |rest| == 1 {
        t := [];
        UnescapedCases(buf[..i], t);
      } else {
        t := rest[2..];
        PrependTwice(front, [rest[1]], Unescaped(t));
      }
    }
  }

  /** Reading a written string gives it back, whatever follows the closing quote. */
  lemma {:induction false} EscapeRoundTrip(s: string, tail: string)
    ensures Unescaped(Escaped(s) + [QUOTE] + tail) == Some(s)
  {
    var t := Escaped(s) + [QUOTE] + tail;
    if s == [] {
      assert t[0] == QUOTE;
    } else {
      EscapeRoundTrip(s[1..], tail);
      var rest := Escaped(s[1..]) + [QUOTE] + tail;
      if IsSpecial(s[0]) {
        assert t[0] == BACKSLASH && t[1] == s[0] && t[2..] == rest;
      } else {
        assert t[0] == s[0] && t[1..] == rest;
      }
      assert [s[0]] + s[1..] == s;
    }
  }

  // ---------- Kconfiglib ----------

  /** str.replace: occurrences are found from the left and do not overlap. */
  function Replace(s: string, old_: string, new_: string): string
    requires old_ != []
    decreases |s|
  {
    if |s| < |old_| then s
    else if s[..|old_|] == old_ then new_ + Replace(s[|old_|..], old_, new_)
    else [s[0]] + Replace(s[1..], old_, new_)
  }

  function PyEscaped(s: string): string {
    Replace(Replace(s, [BACKSLASH], [BACKSLASH, BACKSLASH]), [QUOTE], [BACKSLASH, QUOTE])
  }

  function Unquoted(t: string): string {
    Replace(t, [BACKSLASH, QUOTE], [QUOTE])
  }

  function Halved(t: string): string {
    Replace(t, [BACKSLASH, BACKSLASH], [BACKSLASH])
  }

  function PyUnescaped(s: string): string {
    Halved(Unquoted(s))
  }

  function Doubled(s: string): string {
    Replace(s, [BACKSLASH], [BACKSLASH, BACKSLASH])
  }

  lemma {:induction false} PyEscapeIsEscape(s: string)
    ensures PyEscaped(s) == Escaped(s)
  {
    if s != [] {
      PyEscapeIsEscape(s[1..]);
      assert s[..1] == [s[0]];
      var d := Doubled(s[1..]);
      if s[0] == BACKSLASH {
        var t := [BACKSLASH, BACKSLASH] + d;
        assert t[..1] == [BACKSLASH] && t[1..][..1] == [BACKSLASH] && t[1..][1..] == d;
        assert Replace(t[1..], [QUOTE], [BACKSLASH, QUOTE]) == [BACKSLASH] + Replace(d, [QUOTE], [BACKSLASH, QUOTE]);
      } else {
        var t := [s[0]] + d;
        assert t[..1] == [s[0]] && t[1..] == d;
      }
    }
  }

  /** An escaped text never starts with a bare quote. */
  lemma EscapedStart(s: string)
    ensures Escaped(s) != [] ==> Escaped(s)[0] != QUOTE
  {
  }

  /** One step of a replacement that does not match at the front. */
  lemma ReplaceSkips(s: string, old_: string, new_: string)
    requires old_ != [] && s != [] && !(old_ <= s)
    ensures Replace(s, old_, new_) == [s[0]] + Replace(s[1..], old_, new_)
  {
    if |s| < |old_| {
      assert s == [s[0]] + s[1..];
    }
  }

  lemma {:induction false} UnquotingLeavesDoubled(s: string)
    ensures Unquoted(Escaped(s)) == Doubled(s)
  {
    if s != [] {
      UnquotingLeavesDoubled(s[1..]);
      var e, t := Escaped(s[1..]), Escaped(s);
      assert s[..1] == [s[0]];
      EscapedStart(s[1..]);
      if s[0] == QUOTE {
        assert t[..2] == [BACKSLASH, QUOTE] && t[2..] == e;
      } else {
        assert if s[0] == BACKSLASH then t[1] == BACKSLASH && QUOTE != BACKSLASH else t[0] == s[0];
        ReplaceSkips(t, [BACKSLASH, QUOTE], [QUOTE]);
        if s[0] == BACKSLASH {
          var u := t[1..];
          assert u == [BACKSLASH] + e && u[1..] == e;
          assert e != [] ==> u[1] == e[0] && e[0] != QUOTE;
          ReplaceSkips(u, [BACKSLASH, QUOTE], [QUOTE]);
        } else {
          assert t[1..] == e;
        }
      }
    }
  }

  lemma {:induction false} HalvingDoubled(s: string)
    ensures Halved(Doubled(s)) == s
  {
    if s != [] {
      HalvingDoubled(s[1..]);
      var d, t := Doubled(s[1..]), Doubled(s);
      assert s[..1] == [s[0]] && s == [s[0]] + s[1..];
      if s[0] == BACKSLASH {
        assert t[..2] == [BACKSLASH, BACKSLASH] && t[2..] == d;
      } else {
        assert t[0] == s[0] && t[1..] == d;
        if |t| < 2 { assert d == []; }
      }
    }
  }

  /** Kconfiglib's two successive replacements undo its own escaping and the C escaping, and agree
      with the C unescaping on every text that either has written. */
  lemma PyRoundTrip(s: string)
    ensures PyUnescaped(PyEscaped(s)) == s
    ensures Unescaped(PyEscaped(s) + [QUOTE]) == Some(PyUnescaped(Escaped(s)))
  {
    PyEscapeIsEscape(s);
    UnquotingLeavesDoubled(s);
    HalvingDoubled(s);
    EscapeRoundTrip(s, []);
    assert Escaped(s) + [QUOTE] + [] == Escaped(s) + [QUOTE];
  }

  // ---------- where the two unescapings agree ----------

  /** The C loop reads all of the text before it meets the closing quote: every quote in it is
      escaped, and it does not end inside an escape. */
  predicate Whole(t: string) {
    if t == [] then true
    else if t[0] == QUOTE then false
    else if t[0] == BACKSLASH then |t| >= 2 && Whole(t[2..])
    else Whole(t[1..])
  }

  /** What the C loop makes of such a text: each escaping backslash is dropped. */
  function Value(t: string): string
    requires Whole(t)
  {
    if t == [] then []
    else if t[0] == BACKSLASH then [t[1]] + Value(t[2..])
    else [t[0]] + Value(t[1..])
  }

  /** The escapes that are not needed: a backslash before an ordinary character. */
  function Needless(t: string): nat
    requires Whole(t)
  {
    if t == [] then 0
    else if t[0] == BACKSLASH then (if IsSpecial(t[1]) then 0 else 1) + Needless(t[2..])
    else Needless(t[1..])
  }

  /** A text is whole if and only if the C loop finds no closing quote in it, but takes a quote
      after it for one; then the loop reads its value. */
  lemma {:induction false} WholeIsRead(t: string)
    ensures Whole(t) <==> Unescaped(t).None? && Unescaped(t + [QUOTE]).Some?
    ensures Whole(t) ==> Unescaped(t + [QUOTE]) == Some(Value(t))
  {
    var u := t + [QUOTE];
    if t == [] {
    } else if t[0] == BACKSLASH {
      if |t| == 1 {
        assert u[2..] == [];
      } else {
        WholeIsRead(t[2..]);
        assert u[2..] == t[2..] + [QUOTE];
      }
    } else if t[0] != QUOTE {
      WholeIsRead(t[1..]);
      assert u[1..] == t[1..] + [QUOTE];
    }
  }

  lemma UnquotedPlain(t: string)
    requires t != [] && t[0] != BACKSLASH
    ensures Unquoted(t) == [t[0]] + Unquoted(t[1..])
  {
    ReplaceSkips(t, [BACKSLASH, QUOTE], [QUOTE]);
  }

  /** The first replacement changes an escape only if it is that of a quote. */
  lemma UnquotedEscape(t: string)
    requires |t| >= 2 && t[0] == BACKSLASH && (t[1] == BACKSLASH && |t| > 2 ==> t[2] != QUOTE)
    ensures Unquoted(t) == (if t[1] == QUOTE then [QUOTE] else [BACKSLASH, t[1]]) + Unquoted(t[2..])
  {
    var quote, u := [BACKSLASH, QUOTE], t[1..];
    assert u[1..] == t[2..];
    if t[1] == QUOTE {
      assert t[..2] == quote;
    } else {
      assert t[1] != quote[1];
      ReplaceSkips(t, quote, [QUOTE]);
      assert t[1] == BACKSLASH && |u| >= 2 ==> u[1] == t[2] && t[2] != QUOTE;
      ReplaceSkips(u, quote, [QUOTE]);
      assert [BACKSLASH] + ([t[1]] + Unquoted(t[2..])) == [BACKSLASH, t[1]] + Unquoted(t[2..]);
    }
  }

  lemma HalvedPlain(c: char, rest: string)
    requires c != BACKSLASH
    ensures Halved([c] + rest) == [c] + Halved(rest)
  {
    var s := [c] + rest;
    assert s[0] == c && s[1..] == rest;
    ReplaceSkips(s, [BACKSLASH, BACKSLASH], [BACKSLASH]);
  }

  /** The second one halves a pair and leaves a single backslash. */
  lemma HalvedEscape(c: char, rest: string)
    ensures Halved([BACKSLASH, c] + rest) == (if c == BACKSLASH then [c] else [BACKSLASH, c]) + Halved(rest)
  {
    var s, back := [BACKSLASH, c] + rest, [BACKSLASH, BACKSLASH];
    if c == BACKSLASH {
      assert s[..2] == back && s[2..] == rest;
    } else {
      assert s[1] != back[1];
      ReplaceSkips(s, back, [BACKSLASH]);
      assert s[1..] == [c] + rest;
      HalvedPlain(c, rest);
      assert [BACKSLASH] + ([c] + Halved(rest)) == [BACKSLASH, c] + Halved(rest);
    }
  }

  /** One step of Kconfiglib's unescaping: only the escapes of quotes and backslashes go. */
  lemma PyUnescapedStep(t: string)
    requires Whole(t) && t != []
    ensures t[0] != BACKSLASH ==> PyUnescaped(t) == [t[0]] + PyUnescaped(t[1..])
    ensures t[0] == BACKSLASH ==>
      PyUnescaped(t) == (if IsSpecial(t[1]) then [t[1]] else [BACKSLASH, t[1]]) + PyUnescaped(t[2..])
  {
    hide Replace;
    if t[0] != BACKSLASH {
      UnquotedPlain(t);
      HalvedPlain(t[0], Unquoted(t[1..]));
    } else {
      UnquotedEscape(t);
      HalvedPlain(QUOTE, Unquoted(t[2..]));
      HalvedEscape(t[1], Unquoted(t[2..]));
    }
  }

  /** Kconfiglib keeps exactly the needless backslashes. */
  lemma {:induction false} PyKeepsNeedless(t: string)
    requires Whole(t)
    ensures |PyUnescaped(t)| == |Value(t)| + Needless(t)
  {
    if t != [] {
      PyUnescapedStep(t);
      PyKeepsNeedless(if t[0] == BACKSLASH then t[2..] else t[1..]);
    }
  }

  lemma {:induction false} NothingNeedless(t: string)
    requires Whole(t) && Needless(t) == 0
    ensures t == Escaped(Value(t))
  {
    if t != [] {
      if t[0] == BACKSLASH {
        NothingNeedless(t[2..]);
        assert Value(t) == [t[1]] + Value(t[2..]) && Value(t)[1..] == Value(t[2..]);
        assert t == [t[0], t[1]] + t[2..];
      } else {
        NothingNeedless(t[1..]);
        assert Value(t) == [t[0]] + Value(t[1..]) && Value(t)[1..] == Value(t[1..]);
        assert t == [t[0]] + t[1..];
      }
    }
  }

  lemma {:induction false} EscapedIsWhole(s: string)
    ensures Whole(Escaped(s)) && Value(Escaped(s)) == s && Needless(Escaped(s)) == 0
  {
    if s != [] {
      EscapedIsWhole(s[1..]);
      var t := Escaped(s);
      assert s == [s[0]] + s[1..];
      if IsSpecial(s[0]) {
        assert t[0] == BACKSLASH && t[1] == s[0] && t[2..] == Escaped(s[1..]);
      } else {
        assert t[0] == s[0] && t[1..] == Escaped(s[1..]);
      }
    }
  }

  /** Where a quote in the text closes it for the C loop, Kconfiglib gets more. */
  lemma {:induction false} ClosedIsShorter(t: string)
    requires !Whole(t) && Unescaped(t + [QUOTE]).Some?
    ensures |Unescaped(t + [QUOTE]).value| < |PyUnescaped(t)|
  {
    hide Replace, Whole;
    WholeCases(t);
    var u := t + [QUOTE];
    if t[0] == QUOTE {
      UnquotedPlain(t);
      HalvedPlain(QUOTE, Unquoted(t[1..]));
    } else if t[0] != BACKSLASH {
      assert u[1..] == t[1..] + [QUOTE];
      ClosedIsShorter(t[1..]);
      UnquotedPlain(t);
      HalvedPlain(t[0], Unquoted(t[1..]));
    } else if |t| >= 2 {
      assert u[1] == t[1] && u[2..] == t[2..] + [QUOTE];
      ClosedIsShorter(t[2..]);
      EscapeThenClosed(t);
    } else {
      LoneBackslash(t);
    }
  }

  lemma LoneBackslash(t: string)
    requires t == [BACKSLASH]
    ensures Unescaped(t + [QUOTE]).None?
  {
    var u := t + [QUOTE];
    assert u[1..] == [QUOTE] && u[2..] == [];
  }

  lemma WholeCases(t: string)
    ensures t == [] ==> Whole(t)
    ensures t != [] && t[0] != QUOTE && t[0] != BACKSLASH ==> (Whole(t) <==> Whole(t[1..]))
    ensures |t| >= 2 && t[0] == BACKSLASH ==> (Whole(t) <==> Whole(t[2..]))
  {
  }

  /** Whatever follows an escape, Kconfiglib keeps a character of it. */
  lemma EscapeThenClosed(t: string)
    requires |t| >= 2 && t[0] == BACKSLASH
    ensures t[1] == BACKSLASH && |t| > 2 && t[2] == QUOTE ==> |PyUnescaped(t)| >= 2
    ensures !(t[1] == BACKSLASH && |t| > 2 && t[2] == QUOTE) ==> |PyUnescaped(t)| > |PyUnescaped(t[2..])|
  {
    hide Replace;
    if t[1] == BACKSLASH && |t| > 2 && t[2] == QUOTE {
      var u := t[1..];
      UnquotedDoubled(t);
      HalvedEscape(QUOTE, Unquoted(t[3..]));
    } else {
      UnquotedEscape(t);
      HalvedPlain(QUOTE, Unquoted(t[2..]));
      HalvedEscape(t[1], Unquoted(t[2..]));
    }
  }

  lemma UnquotedDoubled(t: string)
    requires |t| >= 3 && t[0] == BACKSLASH && t[1] == BACKSLASH && t[2] == QUOTE
    ensures Unquoted(t) == [BACKSLASH, QUOTE] + Unquoted(t[3..])
  {
    var quote, u := [BACKSLASH, QUOTE], t[1..];
    assert t[1] != quote[1];
    ReplaceSkips(t, quote, [QUOTE]);
    assert u[..2] == quote && u[2..] == t[3..];
    assert [BACKSLASH] + ([QUOTE] + Unquoted(t[3..])) == [BACKSLASH, QUOTE] + Unquoted(t[3..]);
  }

  /** The two unescapings agree on a text if and only if it is the escaped form of something. Any
      other text has an unescaped quote, which closes it for the C loop, or an escape without end,
      which the C loop rejects, or a backslash before an ordinary character, which only the C loop
      drops. */
  lemma UnescapesAgree(t: string)
    ensures Unescaped(t + [QUOTE]) == Some(PyUnescaped(t)) <==> exists s :: t == Escaped(s)
    ensures Unescaped(t + [QUOTE]) == Some(PyUnescaped(t)) <==> Whole(t) && Needless(t) == 0
  {
    if Whole(t) {
      WholeAgree(t);
    } else {
      if Unescaped(t + [QUOTE]).Some? { ClosedIsShorter(t); }
      forall s
        ensures t != Escaped(s)
      {
        EscapedIsWhole(s);
      }
    }
  }

  lemma WholeAgree(t: string)
    requires Whole(t)
    ensures Unescaped(t + [QUOTE]) == Some(PyUnescaped(t)) <==> exists s :: t == Escaped(s)
    ensures Unescaped(t + [QUOTE]) == Some(PyUnescaped(t)) <==> Needless(t) == 0
  {
    WholeIsRead(t);
    PyKeepsNeedless(t);
    if Needless(t) == 0 {
      NothingNeedless(t);
      PyEscapeIsEscape(Value(t));
      PyRoundTrip(Value(t));
    }
    forall s | t == Escaped(s)
      ensures Needless(t) == 0
    {
      EscapedIsWhole(s);
    }
  }

  /** The shortest texts on which they differ. */
  lemma UnescapesDiffer(c: char)
    requires !IsSpecial(c)
    ensures Unescaped([BACKSLASH, c, QUOTE]) == Some([c])
    ensures PyUnescaped([BACKSLASH, c]) == [BACKSLASH, c]
  {
    var t := [BACKSLASH, c];
    assert t + [QUOTE] == [BACKSLASH, c, QUOTE] && t[2..] == [];
    WholeIsRead(t);
    assert Value(t) == [c] + Value([]) == [c];
    PyUnescapedStep(t);
  }
}
