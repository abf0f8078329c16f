/** What the lexer makes of numbers, strings, punctuation, indentation and comments,
    compiler/src/lexer.rs:300-424 and 559-667, stated over the text as an author writes it. */
module Literals {
  import opened Common
  import opened Contracts
  import opened Lexer
  import opened LexedText

  // ----- numbers ---------------------------------------------------------------------------

  /** The digits as they are written. */
  function DigitChar(d: nat, upper: bool): char
    requires d < 16
  {
    match d
    case 0 => '0' case 1 => '1' case 2 => '2' case 3 => '3' case 4 => '4'
    case 5 => '5' case 6 => '6' case 7 => '7' case 8 => '8' case 9 => '9'
    case 10 => if upper then 'A' else 'a'
    case 11 => if upper then 'B' else 'b'
    case 12 => if upper then 'C' else 'c'
    case 13 => if upper then 'D' else 'd'
    case 14 => if upper then 'E' else 'e'
    case _ => if upper then 'F' else 'f'
  }

  /** The numeral of n in positional notation, most significant digit first. */
  function Numeral(n: nat, radix: nat, upper: bool): (s: string)
    requires 2 <= radix <= 16
    ensures s != []
  {
    if n < radix then [DigitChar(n, upper)]
    else Numeral(n / radix, radix, upper) + [DigitChar(n % radix, upper)]
  }

  lemma {:induction false} DigitOfChar(d: nat, upper: bool)
    requires d < 16
    ensures DigitValue(DigitChar(d, upper)) == d && IsHex(DigitChar(d, upper))
    ensures d < 10 ==> IsDigit(DigitChar(d, upper))
  {
  }

  predicate AllHexits(s: string) { forall i :: 0 <= i < |s| ==> IsHex(s[i]) }

  lemma {:induction false} NumeralDigits(n: nat, radix: nat, upper: bool)
    requires 2 <= radix <= 16
    ensures AllHexits(Numeral(n, radix, upper)) && (radix <= 10 ==> AllDigits(Numeral(n, radix, upper)))
  {
    DigitOfChar(n % radix, upper);
    if n < radix {
      assert n % radix == n;
    } else {
      NumeralDigits(n / radix, radix, upper);
    }
  }

  lemma {:induction false} ValueSnoc(s: string, c: char, radix: nat)
    ensures Value(s + [c], radix) == Value(s, radix) * radix + DigitValue(c)
  {
    assert (s + [c])[..|s|] == s;
  }

  lemma {:induction false} ValueOne(c: char, radix: nat)
    ensures Value([c], radix) == DigitValue(c)
  {
    ValueSnoc("", c, radix);
    assert "" + [c] == [c];
    assert Value("", radix) * radix == 0;
  }

  lemma {:induction false} DivMod(n: nat, radix: nat)
    requires radix > 0
    ensures n / radix * radix + n % radix == n
  {
  }

  lemma {:induction false} NumeralStep(n: nat, radix: nat, q: nat, d: nat, s: string, c: char)
    requires q * radix + d == n && Value(s, radix) == q && DigitValue(c) == d
    ensures Value(s + [c], radix) == n
  {
    ValueSnoc(s, c, radix);
  }

  lemma {:induction false} NumeralValue(n: nat, radix: nat, upper: bool)
    requires 2 <= radix <= 16
    ensures Value(Numeral(n, radix, upper), radix) == n
  {
    if n < radix {
      DigitOfChar(n, upper);
      ValueOne(DigitChar(n, upper), radix);
    } else {
      var q, d := n / radix, n % radix;
      DigitOfChar(d, upper);
      NumeralValue(q, radix, upper);
      DivMod(n, radix);
      NumeralStep(n, radix, q, d, Numeral(q, radix, upper), DigitChar(d, upper));
    }
  }

  predicate EndsHex(t: string) { t == [] || !IsHex(t[0]) }

  lemma {:induction false} ReadHexits(d: string, t: string)
    requires d != [] && AllHexits(d) && EndsHex(t)
    ensures ReadNumber('0', "x" + (d + t))
         == (if Value(d, 16) < TwoTo63 then Ok(Integer(Value(d, 16)))
             else if Value(d, 16) < TwoTo64 then Ok(Integer(Value(d, 16) - TwoTo64)) else Err, t)
  {
    var s := "x" + (d + t);
    assert s[0] == 'x' && s[1..] == d + t;
    SpanOver(d, t, IsHex);
    assert (d + t)[..|d|] == d && (d + t)[|d|..] == t;
  }

  /** A hexadecimal literal, in either case, may use all 64 bits; the upper half is negative. */
  lemma {:induction false} HexLiteral(n: nat, upper: bool, t: string)
    requires EndsHex(t)
    ensures ReadNumber('0', "x" + (Numeral(n, 16, upper) + t))
         == (if n < TwoTo63 then Ok(Integer(n)) else if n < TwoTo64 then Ok(Integer(n - TwoTo64)) else Err, t)
  {
    NumeralDigits(n, 16, upper);
    NumeralValue(n, 16, upper);
    ReadHexits(Numeral(n, 16, upper), t);
  }

  lemma {:induction false} HexNeedsDigits(t: string)
    requires EndsHex(t)
    ensures ReadNumber('0', "x" + t) == (Err, t)
  {
    assert ("x" + t)[1..] == t;
    assert Span(t, IsHex) == 0 && t[0..] == t;
  }

  /** A decimal literal has to fit 63 bits and a sign. */
  lemma {:induction false} DecimalLiteral(n: nat, t: string)
    requires EndsNumber(t)
    ensures var d := Numeral(n, 10, false);
      ReadNumber(d[0], d[1..] + t) == (if n < TwoTo63 then Ok(Integer(n)) else Err, t)
  {
    NumeralDigits(n, 10, false);
    NumeralValue(n, 10, false);
    ReadDigits(Numeral(n, 10, false), t);
  }

  lemma {:induction false} NegativeLiteral(n: nat, t: string)
    requires EndsNumber(t)
    ensures ReadNumber('-', Numeral(n, 10, false) + t) == (if n <= TwoTo63 then Ok(Integer(0 - n)) else Err, t)
  {
    var d := Numeral(n, 10, false);
    NumeralDigits(n, 10, false);
    NumeralValue(n, 10, false);
    SpanOver(d, t, IsDigit);
    assert (d + t)[..|d|] == d && (d + t)[|d|..] == t;
  }

  /** Digits with a point are a float literal and keep their text; a second point is not part of it. */
  lemma {:induction false} FloatLiteral(first: char, d: string, e: string, t: string)
    requires (IsDigit(first) || first == '-') && AllDigits(d) && AllDigits(e) && (t == [] || !IsDigit(t[0]))
    ensures ReadNumber(first, d + ("." + (e + t))) == (Ok(FloatLit([first] + d + "." + e)), t)
  {
    var s := d + ("." + (e + t));
    SpanOver(d, "." + (e + t), IsDigit);
    assert s[|d|] == '.' && s[..|d|] == d && s[|d|..] == "." + (e + t);
    assert s[|d|..][1..] == e + t;
    SpanOver(e, t, IsDigit);
    assert (e + t)[..|e|] == e && (e + t)[|e|..] == t;
    assert s[0] != 'x';
  }

  // ----- strings -------------------------------------------------------------------------------

  /** As an author escapes it. */
  function EscapeChar(c: char): string {
    if c == '\n' then "\\n" else if c == '\r' then "\\r" else if c == '\t' then "\\t"
    else if c == '\\' then "\\\\" else if c == '"' then "\\\"" else [c]
  }

  function Escape(text: string): string {
    if text == [] then "" else EscapeChar(text[0]) + Escape(text[1..])
  }

  lemma {:induction false} EscapeThen(text: string, t: string)
    requires text != []
    ensures Escape(text) + t == EscapeChar(text[0]) + (Escape(text[1..]) + t)
  {
    var a, b := EscapeChar(text[0]), Escape(text[1..]);
    assert a + b + t == a + (b + t);
  }

  lemma {:induction false} CharacterRead(c: char, t: string, acc: string)
    ensures ReadString(EscapeChar(c) + t, acc) == ReadString(t, acc + [c])
  {
    var s := EscapeChar(c) + t;
    if c == '\n' || c == '\r' || c == '\t' || c == '\\' || c == '"' {
      assert |EscapeChar(c)| == 2 && EscapeChar(c)[0] == '\\' && Escaped(EscapeChar(c)[1]) == Some(c);
      assert s[0] == '\\' && s[1] == EscapeChar(c)[1] && s[2..] == t;
    } else {
      assert s[0] == c && s[1..] == t;
    }
  }

  lemma {:induction false} ClosingQuote(t: string, acc: string)
    ensures ReadString("\"" + t, acc) == (Ok(StringLit(acc)), t)
  {
    assert ("\"" + t)[1..] == t;
  }

  /** Every text can be written as a string literal and is read back. */
  lemma {:induction false} StringLiteral(text: string, t: string, acc: string)
    ensures ReadString(Escape(text) + ("\"" + t), acc) == (Ok(StringLit(acc + text)), t)
    decreases |text|
  {
    var end := "\"" + t;
    if text == [] {
      assert Escape(text) + end == end && acc + text == acc;
      ClosingQuote(t, acc);
    } else {
      EscapeThen(text, end);
      CharacterRead(text[0], Escape(text[1..]) + end, acc);
      StringLiteral(text[1..], t, acc + [text[0]]);
      assert acc + [text[0]] + text[1..] == acc + text;
    }
  }

  predicate IsEscape(c: char) { c == 'n' || c == 'r' || c == 't' || c == '\\' || c == '"' }

  /** A string that is not closed, a line break in it, and any other escape are errors. */
  lemma {:induction false} BadString(text: string, c: char, t: string, acc: string)
    requires !IsEscape(c)
    ensures ReadString(Escape(text), acc).0 == Err
    ensures ReadString(Escape(text) + ("\n" + t), acc).0 == Err
    ensures ReadString(Escape(text) + ("\\" + ([c] + t)), acc).0 == Err
    decreases |text|
  {
    if text == [] {
      assert Escape(text) + ("\n" + t) == "\n" + t && Escape(text) + ("\\" + ([c] + t)) == "\\" + ([c] + t);
      BadEscape(c, t, acc);
    } else {
      BadString(text[1..], c, t, acc + [text[0]]);
      EscapeThen(text, "");
      assert Escape(text) + "" == Escape(text) && Escape(text[1..]) + "" == Escape(text[1..]);
      EscapeThen(text, "\n" + t);
      EscapeThen(text, "\\" + ([c] + t));
      CharacterRead(text[0], Escape(text[1..]), acc);
      CharacterRead(text[0], Escape(text[1..]) + ("\n" + t), acc);
      CharacterRead(text[0], Escape(text[1..]) + ("\\" + ([c] + t)), acc);
    }
  }

  lemma {:induction false} BadEscape(c: char, t: string, acc: string)
    requires !IsEscape(c)
    ensures ReadString("\\" + ([c] + t), acc).0 == Err
  {
    var s := "\\" + ([c] + t);
    assert s[0] == '\\' && s[1] == c;
    assert Escaped(c).None?;
  }

  // ----- single characters ---------------------------------------------------------------------------

  /** The token of a character that is one by itself. */
  lemma {:induction false} FirstCharacter(c: char, t: string)
    requires !IsBlank(c) && c != '#'
    ensures Next(Mid([c] + t)) == Scan(c, Mid(t), false)
  {
    var s := [c] + t;
    assert Span(s, IsBlank) == 0 && s[0..] == s && s[1..] == t;
  }

  /** The signs of the language. */
  function SignToken(c: char): Token {
    if c == '=' then Equals else if c == ':' then Colon else if c == '@' then At else if c == ',' then Comma
    else if c == '.' then Dot else if c == '[' then LeftBracket else RightBracket
  }

  lemma {:induction false} SignTokens(c: char, t: string)
    requires c == '=' || c == ':' || c == '@' || c == ',' || c == '.' || c == '[' || c == ']'
    ensures Next(Mid([c] + t)) == (Ok(SignToken(c)), Mid(t))
  {
    FirstCharacter(c, t);
    assert Punctuation(c) == Some(SignToken(c));
  }

  /** A minus sign begins an arrow or a negative number, and stands for itself otherwise. */
  lemma {:induction false} MinusTokens(t: string)
    ensures Next(Mid("-" + t))
         == if t != [] && t[0] == '>' then (Ok(Arrow), Mid(t[1..]))
            else if t != [] && IsDigit(t[0]) then (ReadNumber('-', t).0, Mid(ReadNumber('-', t).1))
            else (Ok(RawText("-")), Mid(t))
  {
    FirstCharacter('-', t);
    assert Punctuation('-').None?;
  }

  /** A quote begins a string, except in a DESCRIPTION, where it is text. */
  lemma {:induction false} QuoteToken(text: string, t: string)
    ensures Next(Mid("\"" + (Escape(text) + ("\"" + t)))) == (Ok(StringLit(text)), Mid(t))
    ensures Next(State("\"" + t, false, true)) == (Ok(RawText("\"")), State(t, false, true))
  {
    FirstCharacter('"', Escape(text) + ("\"" + t));
    StringLiteral(text, t, "");
    assert "" + text == text;
    var s := "\"" + t;
    assert Span(s, IsBlank) == 0 && s[0..] == s && s[1..] == t;
  }

  // ----- lines --------------------------------------------------------------------------------------------

  predicate AllIndent(s: string) { forall i :: 0 <= i < |s| ==> s[i] == ' ' || s[i] == '\t' }

  lemma {:induction false} WidthExactly(s: string)
    requires AllIndent(s)
    ensures Width(s) == multiset(s)[' '] + 2 * multiset(s)['\t']
  {
    if s != [] {
      WidthExactly(s[1..]);
      assert s == [s[0]] + s[1..];
    }
  }

  /** Indentation counts a blank for one and a tab for two; it is a token before anything but a line
      break or a comment. */
  lemma {:induction false} IndentToken(s: string, t: string)
    requires s != [] && AllIndent(s) && t != [] && !IsIndent(t[0])
    ensures t[0] != '\n' && t[0] != '#' ==>
              Next(Bol(s + t)) == (Ok(Indent(multiset(s)[' '] + 2 * multiset(s)['\t'])), Mid(t))
    ensures t[0] == '\n' ==> Next(Bol(s + t)) == (Ok(Newline), Bol(t[1..]))
  {
    SpanOver(s, t, IsIndent);
    assert (s + t)[..|s|] == s && (s + t)[|s|..] == t;
    WidthExactly(s);
    assert Span(t, IsBlank) == 0 || IsBlank(t[0]);
    assert t[0..] == t;
  }

  /** Blanks, tabs and carriage returns inside a line separate tokens and are none. */
  lemma {:induction false} BlanksSkipped(s: string, t: string)
    requires forall i :: 0 <= i < |s| ==> s[i] == ' ' || s[i] == '\t' || s[i] == '\r'
    ensures Next(Mid(s + t)) == Next(Mid(t))
  {
    var n := Span(t, IsBlank);
    SpanIs(s + t, |s| + n, IsBlank);
    assert (s + t)[|s| + n..] == t[n..];
  }

  /** A comment runs to the end of its line, wherever it begins. */
  lemma {:induction false} CommentSkipped(text: string, t: string, lineStart: bool)
    requires forall i :: 0 <= i < |text| ==> text[i] != '\n'
    ensures Next(State("#" + (text + ("\n" + t)), lineStart, false)) == (Ok(Newline), Bol(t))
  {
    var s := "#" + (text + ("\n" + t));
    assert s[0] == '#' && s[1..] == text + ("\n" + t);
    assert Span(s, IsIndent) == 0 && Span(s, IsBlank) == 0 && s[0..] == s;
    SpanOver(text, "\n" + t, InComment);
    assert (text + ("\n" + t))[|text|..] == "\n" + t;
    LineEnds(t);
    assert NextInLine(Mid(s), lineStart) == Next(Mid("\n" + t));
  }

  predicate EndsDescription(w: string) {
    || w == "CONTRACT" || w == "HASH" || w == "IMPLEMENTATION" || w == "COMPOSITION" || w == "NATIVE"
    || w == "END" || w == "ENTRY" || w == "USES" || w == "END_EXECUTABLE"
  }

  lemma {:induction false} DescribedScan(w: string, t: string, first: bool)
    requires IsIdentifier(w) && EndsWord(t)
    ensures Scan(w[0], State(w[1..] + t, false, true), first)
         == (Ok(KeywordOrIdentifier(w)), State(t, false, Describing(true, w, first)))
  {
    SpanOver(w[1..], t, IsIdentChar);
    var s := w[1..] + t;
    assert [w[0]] + s[..|w| - 1] == w && s[|w| - 1..] == t;
  }

  lemma {:induction false} DescribedWord(w: string, t: string, first: bool)
    requires IsIdentifier(w) && EndsWord(t)
    ensures NextInLine(State(w + t, false, true), first)
         == (Ok(KeywordOrIdentifier(w)), State(t, false, Describing(true, w, first)))
  {
    var s := w + t;
    assert s[0] == w[0];
    assert Span(s, IsBlank) == 0 && s[0..] == s && s[1..] == w[1..] + t;
    DescribedScan(w, t, first);
  }

  /** A DESCRIPTION lasts until a section keyword in the first column. */
  lemma {:induction false} DescriptionEnds(w: string, t: string)
    requires IsIdentifier(w) && EndsWord(t) && w != "DESCRIPTION"
    ensures Next(State(w + t, true, true)) == (Ok(KeywordOrIdentifier(w)), State(t, false, !EndsDescription(w)))
    ensures Next(State(w + t, false, true)) == (Ok(KeywordOrIdentifier(w)), State(t, false, true))
  {
    var s := w + t;
    assert s[0] == w[0];
    assert Span(s, IsIndent) == 0 && s[0..] == s;
    DescribedWord(w, t, true);
    DescribedWord(w, t, false);
    assert Describing(true, w, true) <==> !EndsDescription(w);
  }
}
