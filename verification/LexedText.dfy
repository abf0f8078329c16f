/** What the lexer makes of the pieces that registry lines are printed from. */
module LexedText {
  import opened Contracts
  import opened Lexer
  import opened Parser

  /** Inside a line, and at the beginning of one, outside any DESCRIPTION. */
  function Mid(s: string): State { State(s, false, false) }
  function Bol(s: string): State { State(s, true, false) }

  type Stepper = State -> (Outcome, State)

  /** next is the lexer's next_token; proofs about token sequences need no more of it. */
  ghost predicate IsNext(next: Stepper) {
    forall st {:trigger Next(st)} :: next(st) == Next(st)
  }

  /** From st the lexer produces ts and is then in state st'. */
  predicate Emits(next: Stepper, st: State, ts: seq<Token>, st': State)
    decreases |ts|
  {
    if ts == [] then st == st'
    else next(st).0 == Ok(ts[0]) && !ts[0].Eof? && Emits(next, next(st).1, ts[1..], st')
  }

  lemma {:induction false} EmitsConcat(next: Stepper, a: State, ts: seq<Token>, b: State, us: seq<Token>, c: State)
    requires Emits(next, a, ts, b) && Emits(next, b, us, c)
    ensures Emits(next, a, ts + us, c)
    decreases |ts|
  {
    if ts == [] {
      assert ts + us == us;
    } else {
      EmitsConcat(next, next(a).1, ts[1..], b, us, c);
      assert (ts + us)[1..] == ts[1..] + us;
    }
  }

  lemma {:induction false} EmitsOne(next: Stepper, a: State, t: Token, b: State)
    requires next(a) == (Ok(t), b) && !t.Eof?
    ensures Emits(next, a, [t], b)
  {
    assert [t][1..] == [];
  }

  lemma {:induction false} EmitsNext(next: Stepper, a: State, t: Token, b: State, ts: seq<Token>, c: State)
    requires next(a) == (Ok(t), b) && !t.Eof? && Emits(next, b, ts, c)
    ensures Emits(next, a, [t] + ts, c)
  {
    assert ([t] + ts)[1..] == ts;
  }

  lemma {:induction false} EmitsLex(next: Stepper, a: State, ts: seq<Token>, b: State)
    requires IsNext(next) && Emits(next, a, ts, b)
    ensures LexFrom(a) == After(ts, LexFrom(b))
    decreases |ts|
  {
    if ts == [] {
      assert LexFrom(b).Tokens? ==> [] + LexFrom(b).tokens == LexFrom(b).tokens;
    } else {
      EmitsLex(next, next(a).1, ts[1..], b);
      LexStep(next, a, ts[0], next(a).1);
      AfterTwo([ts[0]], ts[1..], LexFrom(b));
      assert [ts[0]] + ts[1..] == ts;
    }
  }

  lemma {:induction false} LexStep(next: Stepper, a: State, t: Token, b: State)
    requires IsNext(next) && next(a) == (Ok(t), b) && !t.Eof?
    ensures LexFrom(a) == After([t], LexFrom(b))
  {
    assert Next(a) == next(a);
  }

  /** After some tokens the lexer meets an error. */
  ghost predicate Fails(next: Stepper, st: State) {
    exists ts, st' :: Emits(next, st, ts, st') && next(st').0.Err?
  }

  lemma {:induction false} FailsAfter(next: Stepper, a: State, ts: seq<Token>, b: State)
    requires Emits(next, a, ts, b) && Fails(next, b)
    ensures Fails(next, a)
  {
    var us, c :| Emits(next, b, us, c) && next(c).0.Err?;
    EmitsConcat(next, a, ts, b, us, c);
  }

  lemma {:induction false} FailsLex(next: Stepper, a: State)
    requires IsNext(next) && Fails(next, a)
    ensures LexFrom(a) == LexError
  {
    var ts, b :| Emits(next, a, ts, b) && next(b).0.Err?;
    assert Next(b) == next(b);
    EmitsLex(next, a, ts, b);
  }

  // ----- single tokens ------------------------------------------------------------------------

  lemma {:induction false} SpanOver(w: string, t: string, p: char -> bool)
    requires (forall i :: 0 <= i < |w| ==> p(w[i])) && (t == [] || !p(t[0]))
    ensures Span(w + t, p) == |w|
  {
    SpanIs(w + t, |w|, p);
  }

  predicate EndsWord(t: string) { t == [] || !IsIdentChar(t[0]) }

  lemma {:induction false} ScanWord(w: string, t: string, first: bool)
    requires IsIdentifier(w) && EndsWord(t) && w != "DESCRIPTION"
    ensures Scan(w[0], Mid(w[1..] + t), first) == (Ok(KeywordOrIdentifier(w)), Mid(t))
  {
    SpanOver(w[1..], t, IsIdentChar);
    var s := w[1..] + t;
    assert [w[0]] + s[..|w| - 1] == w && s[|w| - 1..] == t;
  }

  lemma {:induction false} WordInLine(w: string, t: string, first: bool)
    requires IsIdentifier(w) && EndsWord(t) && w != "DESCRIPTION"
    ensures NextInLine(Mid(w + t), first) == (Ok(KeywordOrIdentifier(w)), Mid(t))
  {
    var s := w + t;
    assert s[0] == w[0];
    assert Span(s, IsBlank) == 0 && s[0..] == s;
    assert s[1..] == w[1..] + t;
    ScanWord(w, t, first);
  }

  lemma {:induction false} WordToken(w: string, t: string)
    requires IsIdentifier(w) && EndsWord(t) && w != "DESCRIPTION"
    ensures Next(Mid(w + t)) == (Ok(KeywordOrIdentifier(w)), Mid(t))
  {
    WordInLine(w, t, false);
  }

  /** A word in the first column. */
  lemma {:induction false} FirstWord(w: string, t: string)
    requires IsIdentifier(w) && EndsWord(t) && w != "DESCRIPTION"
    ensures Next(Bol(w + t)) == (Ok(KeywordOrIdentifier(w)), Mid(t))
  {
    var s := w + t;
    assert s[0] == w[0];
    assert Span(s, IsIndent) == 0 && s[0..] == s;
    WordInLine(w, t, true);
  }

  lemma {:induction false} BlankSkips(s: string)
    ensures Next(Mid(" " + s)) == Next(Mid(s))
  {
    var b := " " + s;
    assert b[1..] == s;
    assert Span(b, IsBlank) == 1 + Span(s, IsBlank);
    assert b[Span(b, IsBlank)..] == s[Span(s, IsBlank)..];
  }

  lemma {:induction false} TwoBlanksIndent(w: string, t: string)
    requires IsIdentifier(w)
    ensures Next(Bol("  " + (w + t))) == (Ok(Indent(2)), Mid(w + t))
  {
    var s := "  " + (w + t);
    assert s[2] == w[0];
    SpanOver("  ", w + t, IsIndent);
    assert s[..2] == "  " && s[2..] == w + t;
    assert "  "[1..] == " " && " "[1..] == "";
    assert Width("  ") == 2;
  }

  lemma {:induction false} LineEnds(s: string)
    ensures Next(Mid("\n" + s)) == (Ok(Newline), Bol(s))
  {
    var l := "\n" + s;
    assert l[1..] == s;
    assert Span(l, IsBlank) == 0 && l[0..] == l;
  }

  lemma {:induction false} AtToken(s: string)
    ensures Next(Mid("@" + s)) == (Ok(At), Mid(s))
  {
    var l := "@" + s;
    assert l[1..] == s;
    assert Span(l, IsBlank) == 0 && l[0..] == l;
  }

  predicate AllDigits(s: string) { forall i :: 0 <= i < |s| ==> IsDigit(s[i]) }

  predicate EndsNumber(t: string) { t == [] || (!IsDigit(t[0]) && t[0] != '.' && t[0] != 'x') }

  /** Digits are an integer token if their value fits 63 bits. */
  function Number(d: string): Outcome { if Value(d, 10) < TwoTo63 then Ok(Integer(Value(d, 10))) else Err }

  lemma {:induction false} ReadDigits(d: string, t: string)
    requires d != [] && AllDigits(d) && EndsNumber(t)
    ensures ReadNumber(d[0], d[1..] + t) == (Number(d), t)
  {
    var e, r := d[1..], d[1..] + t;
    SpanOver(e, t, IsDigit);
    assert e != [] ==> r[0] == e[0];
    assert e == [] ==> r == t;
    assert r[..|e|] == e && r[|e|..] == t;
    assert [d[0]] + e == d;
  }

  lemma {:induction false} NumberToken(d: string, t: string)
    requires d != [] && AllDigits(d) && EndsNumber(t)
    ensures Next(Mid(d + t)) == (Number(d), Mid(t))
  {
    var s := d + t;
    assert s[0] == d[0];
    assert Span(s, IsBlank) == 0 && s[0..] == s;
    assert s[1..] == d[1..] + t;
    ScanDigits(d, t);
  }

  lemma {:induction false} ScanDigits(d: string, t: string)
    requires d != [] && AllDigits(d) && EndsNumber(t)
    ensures Scan(d[0], Mid(d[1..] + t), false) == (Number(d), Mid(t))
  {
    ReadDigits(d, t);
    ScanNumber(d[0], d[1..] + t);
  }

  lemma {:induction false} ScanNumber(c: char, s: string)
    requires IsDigit(c)
    ensures Scan(c, Mid(s), false) == (ReadNumber(c, s).0, Mid(ReadNumber(c, s).1))
  {
    assert Punctuation(c).None?;
  }

  lemma {:induction false} BlankWord(w: string, t: string)
    requires IsIdentifier(w) && EndsWord(t) && w != "DESCRIPTION"
    ensures Next(Mid(" " + (w + t))) == (Ok(KeywordOrIdentifier(w)), Mid(t))
  {
    BlankSkips(w + t);
    WordToken(w, t);
  }

  lemma {:induction false} BlankNumber(d: string, t: string)
    requires d != [] && AllDigits(d) && EndsNumber(t)
    ensures Next(Mid(" " + (d + t))) == (Number(d), Mid(t))
  {
    BlankSkips(d + t);
    NumberToken(d, t);
  }

  // ----- which words are keywords ------------------------------------------------------------

  lemma {:induction false} UpperKeywords(s: string)
    requires IsKeyword(s) && s !in LowerWords
    ensures s != [] && IsUpper(s[0])
  {
    if s in Structure {
      StructureUpper(s);
    } else if s in Control {
      ControlUpper(s);
    } else if s in IntegerOps {
      IntegerUpper(s);
    } else if s in FloatOps {
      FloatUpper(s);
    }
  }

  lemma {:induction false} StructureUpper(s: string)
    requires s in Structure
    ensures s != [] && IsUpper(s[0])
  {
  }

  lemma {:induction false} ControlUpper(s: string)
    requires s in Control
    ensures s != [] && IsUpper(s[0])
  {
  }

  lemma {:induction false} IntegerUpper(s: string)
    requires s in IntegerOps
    ensures s != [] && IsUpper(s[0])
  {
  }

  lemma {:induction false} FloatUpper(s: string)
    requires s in FloatOps
    ensures s != [] && IsUpper(s[0])
  {
  }

  predicate AllLowerHex(s: string) { forall i :: 0 <= i < |s| ==> IsLowerHex(s[i]) }

  /** No keyword can be mistaken for (part of) a hash. */
  lemma {:induction false} HexIsNoKeyword(s: string)
    requires s != [] && AllLowerHex(s)
    ensures !IsKeyword(s)
  {
    if IsKeyword(s) && s !in LowerWords {
      UpperKeywords(s);
    }
    if s in LowerWords {
      LowerWordsAreNoHex(s);
    }
  }

  lemma {:induction false} LowerWordsAreNoHex(s: string)
    requires s in LowerWords
    ensures !AllLowerHex(s)
  {
    assert |s| > 1 && (!IsLowerHex(s[0]) || !IsLowerHex(s[1]));
  }

  // ----- numbers and their digits -----------------------------------------------------------------

  lemma {:induction false} ShownIsDigits(n: nat)
    ensures AllDigits(ShowNat(n))
  {
    if n >= 10 {
      ShownIsDigits(n / 10);
    }
  }

  lemma {:induction false} DigitOf(n: nat)
    requires n < 10
    ensures IsDigit(Digit(n)) && DigitValue(Digit(n)) == n
  {
  }

  lemma {:induction false} ValueOfShown(n: nat)
    ensures Value(ShowNat(n), 10) == n
  {
    DigitOf(n % 10);
    if n < 10 {
      assert [Digit(n)][..0] == "";
    } else {
      ValueOfShown(n / 10);
      assert (ShowNat(n / 10) + [Digit(n % 10)])[..|ShowNat(n / 10)|] == ShowNat(n / 10);
    }
  }

  function Power10(k: nat): nat { if k == 0 then 1 else 10 * Power10(k - 1) }

  lemma {:induction false} ValueBound(d: string)
    requires AllDigits(d)
    ensures Value(d, 10) < Power10(|d|)
  {
    if d != [] {
      ValueBound(d[..|d| - 1]);
    }
  }

  lemma {:induction false} ShortValueFits(d: string)
    requires AllDigits(d) && |d| <= 8
    ensures Value(d, 10) < TwoTo63
  {
    ValueBound(d);
    assert Power10(4) == 10000 && Power10(8) == 100000000;
    PowerGrows(|d|, 8);
  }

  lemma {:induction false} PowerGrows(a: nat, b: nat)
    requires a <= b
    ensures Power10(a) <= Power10(b)
  {
    if a < b {
      PowerGrows(a, b - 1);
    }
  }

  /** Reading digits and showing the number again loses exactly the leading zeros. */
  lemma {:induction false} ShownLosesZeros(d: string)
    requires d != [] && AllDigits(d)
    ensures |ShowNat(Value(d, 10))| <= |d|
    ensures d == Zeros(|d| - |ShowNat(Value(d, 10))|) + ShowNat(Value(d, 10))
  {
    var n := |d| - 1;
    var c, e := d[n], d[..n];
    assert d == e + [c];
    assert [Digit(DigitValue(c))] == [c];
    if n == 0 {
      assert e == "" && Value(e, 10) == 0;
      assert Zeros(0) == "";
    } else {
      ShownLosesZeros(e);
      OneDigitMore(d, e, c, Value(e, 10));
    }
  }

  lemma {:induction false} OneDigitMore(d: string, e: string, c: char, v: nat)
    requires d == e + [c] && IsDigit(c) && Value(d, 10) == v * 10 + DigitValue(c)
    requires |ShowNat(v)| <= |e| && e == Zeros(|e| - |ShowNat(v)|) + ShowNat(v)
    ensures |ShowNat(Value(d, 10))| <= |d| && d == Zeros(|d| - |ShowNat(Value(d, 10))|) + ShowNat(Value(d, 10))
  {
    assert [Digit(DigitValue(c))] == [c];
    if v == 0 {
      assert ShowNat(0) == "0";
      assert e == Zeros(|e|);
    } else {
      var k := |e| - |ShowNat(v)|;
      assert ShowNat(Value(d, 10)) == ShowNat(v) + [c];
      assert Zeros(k) + ShowNat(v) + [c] == Zeros(k) + (ShowNat(v) + [c]);
    }
  }

  // ----- the same as steps -----------------------------------------------------------------------

  /** An identifier that the lexer does not take for a keyword. */
  predicate IsName(s: string) { IsIdentifier(s) && !IsKeyword(s) }

  lemma {:induction false} NameStep(next: Stepper, w: string, t: string)
    requires IsNext(next) && IsName(w) && EndsWord(t)
    ensures next(Mid(" " + (w + t))) == (Ok(Identifier(w)), Mid(t))
  {
    BlankWord(w, t);
    assert next(Mid(" " + (w + t))) == Next(Mid(" " + (w + t)));
  }

  lemma {:induction false} LowerStep(next: Stepper, w: string, t: string)
    requires IsNext(next) && w in LowerWords && EndsWord(t)
    ensures next(Mid(" " + (w + t))) == (Ok(Keyword(w)), Mid(t))
  {
    LowerWord(w);
    BlankWord(w, t);
    assert next(Mid(" " + (w + t))) == Next(Mid(" " + (w + t)));
  }

  lemma {:induction false} LowerWord(w: string)
    requires w in LowerWords
    ensures IsIdentifier(w) && KeywordOrIdentifier(w) == Keyword(w) && w != "DESCRIPTION"
  {
  }

  predicate IsClauseWord(w: string) { w == "INPUT" || w == "OUTPUT" || w == "REQUIRES" || w == "GUARANTEES" }

  lemma {:induction false} ClauseWord(w: string)
    requires IsClauseWord(w)
    ensures IsIdentifier(w) && KeywordOrIdentifier(w) == Keyword(w) && w != "DESCRIPTION"
  {
    assert w in ContractWords;
  }

  /** A clause is indented by two. */
  lemma {:induction false} ClauseSteps(next: Stepper, w: string, t: string)
    requires IsNext(next) && IsClauseWord(w) && EndsWord(t)
    ensures next(Bol("  " + (w + t))) == (Ok(Indent(2)), Mid(w + t))
    ensures next(Mid(w + t)) == (Ok(Keyword(w)), Mid(t))
  {
    ClauseWord(w);
    TwoBlanksIndent(w, t);
    assert next(Bol("  " + (w + t))) == Next(Bol("  " + (w + t)));
    WordToken(w, t);
    assert next(Mid(w + t)) == Next(Mid(w + t));
  }

  predicate IsSectionWord(w: string) { w == "BEHAVIOR" || w == "CONTRACT" || w == "HASH" || w == "END" }

  lemma {:induction false} SectionWord(w: string)
    requires IsSectionWord(w)
    ensures IsIdentifier(w) && KeywordOrIdentifier(w) == Keyword(w) && w != "DESCRIPTION"
  {
    assert w in Structure;
  }

  lemma {:induction false} SectionStep(next: Stepper, w: string, t: string)
    requires IsNext(next) && IsSectionWord(w) && EndsWord(t)
    ensures next(Bol(w + t)) == (Ok(Keyword(w)), Mid(t))
  {
    SectionWord(w);
    FirstWord(w, t);
    assert next(Bol(w + t)) == Next(Bol(w + t));
  }

  lemma {:induction false} LineStep(next: Stepper, t: string)
    requires IsNext(next)
    ensures next(Mid("\n" + t)) == (Ok(Newline), Bol(t))
  {
    LineEnds(t);
    assert next(Mid("\n" + t)) == Next(Mid("\n" + t));
  }

  lemma {:induction false} AtStep(next: Stepper, t: string)
    requires IsNext(next)
    ensures next(Mid("@" + t)) == (Ok(At), Mid(t))
  {
    AtToken(t);
    assert next(Mid("@" + t)) == Next(Mid("@" + t));
  }

  lemma {:induction false} BlankStep(next: Stepper, t: string)
    requires IsNext(next)
    ensures next(Mid(" " + t)) == next(Mid(t))
  {
    BlankSkips(t);
    assert next(Mid(" " + t)) == Next(Mid(" " + t)) && next(Mid(t)) == Next(Mid(t));
  }

  lemma {:induction false} SizeStep(next: Stepper, n: nat, t: string)
    requires IsNext(next) && EndsNumber(t)
    ensures next(Mid(" " + (ShowNat(n) + t))) == (if n < TwoTo63 then Ok(Integer(n)) else Err, Mid(t))
  {
    ShownIsDigits(n);
    ValueOfShown(n);
    BlankNumber(ShowNat(n), t);
    assert next(Mid(" " + (ShowNat(n) + t))) == Next(Mid(" " + (ShowNat(n) + t)));
  }

  lemma {:induction false} DigitsStep(next: Stepper, d: string, t: string)
    requires IsNext(next) && d != [] && AllDigits(d) && |d| <= 8 && EndsNumber(t)
    ensures next(Mid(d + t)) == (Ok(Integer(Value(d, 10))), Mid(t))
  {
    ShortValueFits(d);
    NumberToken(d, t);
    assert next(Mid(d + t)) == Next(Mid(d + t));
  }

  lemma {:induction false} HexWord(s: string)
    requires s != [] && AllLowerHex(s) && !IsDigit(s[0])
    ensures IsIdentifier(s) && KeywordOrIdentifier(s) == Identifier(s) && s != "DESCRIPTION"
  {
    HexIsNoKeyword(s);
  }

  lemma {:induction false} HexStep(next: Stepper, s: string, t: string)
    requires IsNext(next) && s != [] && AllLowerHex(s) && !IsDigit(s[0]) && EndsWord(t)
    ensures next(Mid(s + t)) == (Ok(Identifier(s)), Mid(t))
  {
    HexWord(s);
    WordToken(s, t);
    assert next(Mid(s + t)) == Next(Mid(s + t));
  }
}
