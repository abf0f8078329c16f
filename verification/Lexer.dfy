/** The lexer, compiler/src/lexer.rs:227-684, without source positions. */
module Lexer {
  import opened Common
  import opened Contracts

  /** Each keyword has a token of its own; here it is named by its spelling. */
  datatype Token =
    | Keyword(word: string)
    | Integer(value: int)
    | FloatLit(text: string)
    | StringLit(text: string)
    | Identifier(name: string)
    | Equals | Arrow | Dot | At | Comma | Colon | LeftBracket | RightBracket
    | RawText(text: string)
    | Newline
    | Indent(width: nat)
    | Eof

  datatype Outcome = Ok(token: Token) | Err

  datatype Lexed = Tokens(tokens: seq<Token>) | LexError

  // ----- keywords ------------------------------------------------------------------------

  const Structure: set<string> := {
    "BEHAVIOR", "DESCRIPTION", "CONTRACT", "HASH", "IMPLEMENTATION", "COMPOSITION", "NATIVE", "END", "PATTERN",
    "END_PATTERN", "ON_CREATE", "ON_DESTROY", "LIBRARY", "END_LIBRARY", "EXECUTABLE", "END_EXECUTABLE", "ENTRY",
    "USES", "MEMORY", "SCOPE", "END_SCOPE"}

  const ContractWords: set<string> := {"INPUT", "OUTPUT", "REQUIRES", "GUARANTEES"}

  const LowerWords: set<string> := {"pure", "no_alloc", "writes_output", "int", "float", "bytes", "string"}

  const Control: set<string> := {
    "LABEL", "BRANCH", "JUMP", "CALL", "SET", "DISCARD", "SPAWN", "WAIT", "WAIT_ALL", "WAIT_ANY", "CHANNEL",
    "CHANNEL_SEND", "CHANNEL_RECEIVE", "CHANNEL_CLOSE", "SHARED"}

  const MemoryOps: set<string> := {
    "ALLOC", "LOAD", "STORE", "FREE", "ATOMIC_LOAD", "ATOMIC_STORE", "CAS", "ATOMIC_ADD", "ATOMIC_SUB"}

  const IntegerOps: set<string> := {
    "IADD", "ISUB", "IMUL", "IDIV", "IMOD", "INEG", "IEQ", "INE", "ILT", "IGT", "ILE", "IGE"}

  const FloatOps: set<string> := {
    "FADD", "FSUB", "FMUL", "FDIV", "FNEG", "FEQ", "FNE", "FLT", "FGT", "FLE", "FGE", "FTOI", "ITOF"}

  const BitOps: set<string> := {"AND", "OR", "XOR", "NOT", "SHL", "SHR", "SAR"}

  predicate IsKeyword(s: string) {
    || s in Structure || s in ContractWords || s in LowerWords || s in Control
    || s in MemoryOps || s in IntegerOps || s in FloatOps || s in BitOps
  }

  function KeywordOrIdentifier(s: string): Token { if IsKeyword(s) then Keyword(s) else Identifier(s) }

  /** Keywords that end a DESCRIPTION when they stand at the start of a line. */
  const Sections: set<string> := {
    "CONTRACT", "HASH", "IMPLEMENTATION", "COMPOSITION", "NATIVE", "END", "ENTRY", "USES", "END_EXECUTABLE"}

  function Describing(inDescription: bool, word: string, wasLineStart: bool): bool {
    if word == "DESCRIPTION" then true
    else if wasLineStart && word in Sections then false
    else inDescription
  }

  // ----- the tokens of a text -----------------------------------------------------------------

  /** What is left to read, and the two flags. */
  datatype State = State(rest: string, atLineStart: bool, inDescription: bool)

  /** Length of the longest prefix whose characters all satisfy p. */
  function Span(s: string, p: char -> bool): (n: nat)
    ensures n <= |s| && (forall i :: 0 <= i < n ==> p(s[i])) && (n < |s| ==> !p(s[n]))
  {
    if s == [] || !p(s[0]) then 0 else 1 + Span(s[1..], p)
  }

  lemma {:induction false} SpanIs(s: string, n: nat, p: char -> bool)
    requires n <= |s| && (forall i :: 0 <= i < n ==> p(s[i])) && (n < |s| ==> !p(s[n]))
    ensures Span(s, p) == n
  {
    if Span(s, p) < n {
      assert false;
    }
  }

  predicate IsBlank(c: char) { c == ' ' || c == '\t' || c == '\r' }
  predicate IsIndent(c: char) { c == ' ' || c == '\t' }
  predicate InComment(c: char) { c != '\n' }

  /** A tab counts for two. */
  function Width(s: string): nat {
    if s == [] then 0 else (if s[0] == '\t' then 2 else 1) + Width(s[1..])
  }

  function DigitValue(c: char): nat {
    if IsDigit(c) then (c - '0') as nat
    else if 'a' <= c <= 'f' then (c - 'a') as nat + 10
    else if 'A' <= c <= 'F' then (c - 'A') as nat + 10
    else 0
  }

  /** The number that digits write in the given base. */
  function Value(digits: string, radix: nat): nat {
    if digits == [] then 0 else Value(digits[..|digits| - 1], radix) * radix + DigitValue(digits[|digits| - 1])
  }

  const TwoTo63: int := 0x8000_0000_0000_0000
  const TwoTo64: int := 0x1_0000_0000_0000_0000

  /** A number whose first character, a digit or a minus sign, has been read: hexadecimal, or
      digits, or digits with one point. */
  function ReadNumber(first: char, s: string): (r: (Outcome, string))
    ensures |r.1| <= |s|
  {
    if first == '0' && s != [] && s[0] == 'x' then
      var h := Span(s[1..], IsHex);
      var v := Value(s[1..][..h], 16);
      (if h == 0 || v >= TwoTo64 then Err else Ok(Integer(if v < TwoTo63 then v else v - TwoTo64)), s[1..][h..])
    else
      var d := Span(s, IsDigit);
      if d < |s| && s[d] == '.' then
        var t := s[d..][1..];
        var f := Span(t, IsDigit);
        (Ok(FloatLit([first] + s[..d] + ['.'] + t[..f])), t[f..])
      else
        (Decimal(first, s[..d]), s[d..])
  }

  /** A decimal literal has to fit a signed 64-bit integer. */
  function Decimal(first: char, digits: string): Outcome {
    var v := if first == '-' then 0 - Value(digits, 10) else Value([first] + digits, 10);
    if -TwoTo63 <= v < TwoTo63 then Ok(Integer(v)) else Err
  }

  function Escaped(c: char): Option<char> {
    match c
    case 'n' => Some('\n')
    case 'r' => Some('\r')
    case 't' => Some('\t')
    case '\\' => Some('\\')
    case '"' => Some('"')
    case _ => None
  }

  /** A string literal after its opening quote. */
  function ReadString(s: string, text: string): (r: (Outcome, string))
    ensures |r.1| <= |s|
    decreases |s|
  {
    if s == [] then (Err, s)
    else if s[0] == '"' then (Ok(StringLit(text)), s[1..])
    else if s[0] == '\\' then
      if |s| == 1 || Escaped(s[1]).None? then (Err, [])
      else ReadString(s[2..], text + [Escaped(s[1]).value])
    else if s[0] == '\n' then (Err, s[1..])
    else ReadString(s[1..], text + [s[0]])
  }

  function Punctuation(c: char): Option<Token> {
    match c
    case '=' => Some(Equals)
    case ':' => Some(Colon)
    case '@' => Some(At)
    case '[' => Some(LeftBracket)
    case ']' => Some(RightBracket)
    case ',' => Some(Comma)
    case '.' => Some(Dot)
    case _ => None
  }

  /** The token that begins with c; a comment has been dealt with already. */
  function Scan(c: char, st: State, wasLineStart: bool): (r: (Outcome, State))
    requires c != '#'
    ensures |r.1.rest| <= |st.rest| && r.0 != Ok(Eof)
  {
    var s := st.rest;
    if c == '\n' then (Ok(Newline), st.(atLineStart := true))
    else if c == '"' then
      if st.inDescription then (Ok(RawText("\"")), st)
      else
        var r := ReadString(s, "");
        StringTokenIsNotEof(s, "");
        (r.0, st.(rest := r.1))
    else if Punctuation(c).Some? then (Ok(Punctuation(c).value), st)
    else if c == '-' then
      if s != [] && s[0] == '>' then (Ok(Arrow), st.(rest := s[1..]))
      else if s != [] && IsDigit(s[0]) then
        var r := ReadNumber(c, s);
        (r.0, st.(rest := r.1))
      else (Ok(RawText("-")), st)
    else if IsDigit(c) then
      var r := ReadNumber(c, s);
      (r.0, st.(rest := r.1))
    else if IsIdentStart(c) then
      var n := Span(s, IsIdentChar);
      var word := [c] + s[..n];
      (Ok(KeywordOrIdentifier(word)), State(s[n..], st.atLineStart, Describing(st.inDescription, word, wasLineStart)))
    else (Ok(RawText([c])), st)
  }

  lemma {:induction false} StringTokenIsNotEof(s: string, text: string)
    ensures ReadString(s, text).0 != Ok(Eof)
    decreases |s|
  {
    if s != [] && s[0] != '"' && s[0] != '\n' {
      if s[0] == '\\' {
        if |s| > 1 && Escaped(s[1]).Some? {
          StringTokenIsNotEof(s[2..], text + [Escaped(s[1]).value]);
        }
      } else {
        StringTokenIsNotEof(s[1..], text + [s[0]]);
      }
    }
  }

  /** The rest of a line after its indentation. */
  function NextInLine(st: State, wasLineStart: bool): (r: (Outcome, State))
    requires !st.atLineStart
    ensures |r.1.rest| <= |st.rest|
    ensures r.0.Ok? && !r.0.token.Eof? ==> |r.1.rest| < |st.rest|
    decreases |st.rest|, 0
  {
    var s := st.rest[Span(st.rest, IsBlank)..];
    if s == [] then (Ok(Eof), st.(rest := []))
    else if s[0] == '#' then Next(st.(rest := s[1..][Span(s[1..], InComment)..]))
    else Scan(s[0], st.(rest := s[1..]), wasLineStart)
  }

  /** The next token. */
  function Next(st: State): (r: (Outcome, State))
    ensures |r.1.rest| <= |st.rest|
    ensures r.0.Ok? && !r.0.token.Eof? ==> |r.1.rest| < |st.rest|
    decreases |st.rest|, 1
  {
    if st.atLineStart then
      var n := Span(st.rest, IsIndent);
      var s := st.rest[n..];
      var st1 := st.(rest := s, atLineStart := false);
      if n > 0 && s != [] && s[0] != '\n' && s[0] != '#' then (Ok(Indent(Width(st.rest[..n]))), st1)
      else NextInLine(st1, true)
    else NextInLine(st, false)
  }

  function LexFrom(st: State): Lexed
    decreases |st.rest|
  {
    var (r, st1) := Next(st);
    if r.Err? then LexError
    else if r.token.Eof? then Tokens([Eof])
    else
      var more := LexFrom(st1);
      if more.LexError? then LexError else Tokens([r.token] + more.tokens)
  }

  function Start(source: string): State {
    State(if source != [] && source[0] == '\U{FEFF}' then source[1..] else source, true, false)
  }

  function Lex(source: string): Lexed { LexFrom(Start(source)) }

  // ----- the lexer object ------------------------------------------------------------------------

  class LexerObject {
    var rest: string
    var atLineStart: bool
    var inDescription: bool

    function View(): State
      reads this
    {
      State(rest, atLineStart, inDescription)
    }

    constructor (source: string)
      ensures View() == Start(source)
    {
      rest := if source != [] && source[0] == '\U{FEFF}' then source[1..] else source;
      atLineStart, inDescription := true, false;
    }

    method Advance() returns (c: Option<char>)
      modifies this
      ensures old(rest) == [] ==> c.None? && View() == old(View())
      ensures old(rest) != [] ==> c == Some(old(rest)[0])
      ensures old(rest) != [] ==>
                View() == State(old(rest)[1..], old(atLineStart) || old(rest)[0] == '\n', old(inDescription))
    {
      if rest == [] {
        return None;
      }
      c := Some(rest[0]);
      rest := rest[1..];
      if c.value == '\n' {
        atLineStart := true;
      }
    }

    /** Reads on while p holds; the text read. */
    method ReadWhile(p: char -> bool) returns (text: string)
      requires !p('\n')
      modifies this
      ensures var n := Span(old(rest), p); text == old(rest)[..n] && View() == old(View()).(rest := old(rest)[n..])
    {
      text := [];
      ghost var s := rest;
      while rest != [] && p(rest[0])
        invariant |text| <= |s| && text == s[..|text|] && rest == s[|text|..]
        invariant forall i :: 0 <= i < |text| ==> p(s[i])
        invariant atLineStart == old(atLineStart) && inDescription == old(inDescription)
        decreases |rest|
      {
        var c := Advance();
        text := text + [c.value];
      }
      SpanIs(s, |text|, p);
    }

    method ReadNumberToken(first: char) returns (r: Outcome)
      modifies this
      ensures var e := ReadNumber(first, old(rest)); r == e.0 && (r.Ok? ==> View() == old(View()).(rest := e.1))
    {
      if first == '0' && rest != [] && rest[0] == 'x' {
        var x := Advance();
        var digits := ReadWhile(IsHex);
        if digits == [] {
          return Err;
        }
        var v := Value(digits, 16);
        if v >= TwoTo64 {
          return Err;
        }
        return Ok(Integer(if v < TwoTo63 then v else v - TwoTo64));
      }
      var num := ReadWhile(IsDigit);
      if rest != [] && rest[0] == '.' {
        var dot := Advance();
        var fraction := ReadWhile(IsDigit);
        return Ok(FloatLit([first] + num + ['.'] + fraction));
      }
      return Decimal(first, num);
    }

    method ReadStringToken() returns (r: Outcome)
      modifies this
      ensures var e := ReadString(old(rest), ""); r == e.0 && (r.Ok? ==> View() == old(View()).(rest := e.1))
    {
      var text := "";
      while true
        invariant ReadString(rest, text) == ReadString(old(rest), "")
        invariant View() == old(View()).(rest := rest)
        decreases |rest|
      {
        var c := Advance();
        if c.None? || c.value == '\n' {
          return Err;
        }
        if c.value == '"' {
          return Ok(StringLit(text));
        }
        if c.value == '\\' {
          var e := Advance();
          if e.None? || Escaped(e.value).None? {
            return Err;
          }
          text := text + [Escaped(e.value).value];
        } else {
          text := text + [c.value];
        }
      }
    }

    method ScanToken(c: char, wasLineStart: bool) returns (r: Outcome)
      requires c != '#' && (atLineStart <==> c == '\n')
      modifies this
      ensures var e := Scan(c, old(View()), wasLineStart); r == e.0 && (r.Ok? ==> View() == e.1)
    {
      if c == '\n' {
        return Ok(Newline);
      } else if c == '"' {
        if inDescription {
          return Ok(RawText("\""));
        }
        r := ReadStringToken();
      } else if Punctuation(c).Some? {
        return Ok(Punctuation(c).value);
      } else if c == '-' {
        if rest != [] && rest[0] == '>' {
          var gt := Advance();
          return Ok(Arrow);
        } else if rest != [] && IsDigit(rest[0]) {
          r := ReadNumberToken('-');
        } else {
          return Ok(RawText("-"));
        }
      } else if IsDigit(c) {
        r := ReadNumberToken(c);
      } else if IsIdentStart(c) {
        var more := ReadWhile(IsIdentChar);
        var word := [c] + more;
        inDescription := Describing(inDescription, word, wasLineStart);
        return Ok(KeywordOrIdentifier(word));
      } else {
        return Ok(RawText([c]));
      }
    }

    method NextToken() returns (r: Outcome)
      modifies this
      ensures var e := Next(old(View())); r == e.0 && (r.Ok? ==> View() == e.1)
      decreases |rest|, 1
    {
      var wasLineStart := atLineStart;
      if atLineStart {
        var indent := ReadWhile(IsIndent);
        atLineStart := false;
        if Width(indent) > 0 && rest != [] && rest[0] != '\n' && rest[0] != '#' {
          return Ok(Indent(Width(indent)));
        }
      }
      r := TokenInLine(wasLineStart);
    }

    method TokenInLine(wasLineStart: bool) returns (r: Outcome)
      requires !atLineStart
      modifies this
      ensures var e := NextInLine(old(View()), wasLineStart); r == e.0 && (r.Ok? ==> View() == e.1)
      decreases |rest|, 0
    {
      var blanks := ReadWhile(IsBlank);
      var c := Advance();
      if c.None? {
        return Ok(Eof);
      }
      if c.value == '#' {
        var comment := ReadWhile(InComment);
        r := NextToken();
      } else {
        r := ScanToken(c.value, wasLineStart);
      }
    }
  }

  /** lex: the loop over next_token. */
  method Tokenize(source: string) returns (r: Lexed)
    ensures r == Lex(source)
  {
    var lexer := new LexerObject(source);
    var tokens: seq<Token> := [];
    while true
      invariant Lex(source) == After(tokens, LexFrom(lexer.View()))
      decreases |lexer.rest|
    {
      ghost var st := lexer.View();
      var t := lexer.NextToken();
      if t.Err? {
        return LexError;
      }
      AfterTwo(tokens, [t.token], if t.token.Eof? then Tokens([]) else LexFrom(lexer.View()));
      tokens := tokens + [t.token];
      if t.token.Eof? {
        return Tokens(tokens);
      }
    }
  }

  function After(tokens: seq<Token>, more: Lexed): Lexed {
    if more.LexError? then LexError else Tokens(tokens + more.tokens)
  }

  lemma {:induction false} AfterTwo(ts: seq<Token>, us: seq<Token>, more: Lexed)
    ensures After(ts, After(us, more)) == After(ts + us, more)
  {
    if more.Tokens? {
      assert ts + (us + more.tokens) == ts + us + more.tokens;
    }
  }
}
