/** The contract part of the parser, compiler/src/parser.rs:28-228 and 320-443. */
module Parser {
  import opened Common
  import opened Contracts
  import opened Lexer

  /** The sections of a BEHAVIOR that a registry entry has. */
  datatype Entry = Entry(name: string, contract: Contract, hash: string)

  /** A value and the tokens after it. */
  datatype Parsed<T> = Success(value: T, rest: seq<Token>) | Failure

  const NoContract := Contract([], [], [], [], [])

  // ----- what the tokens mean ------------------------------------------------------------

  function Peek(ts: seq<Token>): Token { if ts == [] then Eof else ts[0] }

  function SkipNewlines(ts: seq<Token>): (r: seq<Token>)
    ensures |r| <= |ts|
  {
    if Peek(ts).Newline? || Peek(ts).Indent? then SkipNewlines(ts[1..]) else ts
  }

  function Digit(n: nat): char
    requires n < 10
  {
    '0' + n as char
  }

  /** n.to_string() */
  function ShowNat(n: nat): (s: string)
    ensures s != []
  {
    if n < 10 then [Digit(n)] else ShowNat(n / 10) + [Digit(n % 10)]
  }

  function Show(n: int): string { if n < 0 then "-" + ShowNat(-n) else ShowNat(n) }

  predicate AllHex(s: string) { forall i :: 0 <= i < |s| ==> IsHex(s[i]) }

  function LowerChar(c: char): char { if IsUpper(c) then c - 'A' + 'a' else c }

  function Lower(s: string): (r: string)
    ensures |r| == |s|
  {
    seq(|s|, i requires 0 <= i < |s| => LowerChar(s[i]))
  }

  function Zeros(n: nat): (s: string)
    ensures |s| == n && forall i :: 0 <= i < n ==> s[i] == '0'
  {
    seq(n, i => '0')
  }

  /** Restores leading zeros that the lexer dropped. */
  function FinishHex(s: string): string {
    Lower(if s != [] && |s| < 8 && AllHex(s) then Zeros(8 - |s|) + s else s)
  }

  /** A hash, which the lexer may have split into an integer and an identifier. */
  function HexString(ts: seq<Token>): (r: Parsed<string>)
    ensures r.Success? ==> |r.rest| < |ts|
  {
    match Peek(ts)
    case Identifier(s) => Success(FinishHex(s), ts[1..])
    case Integer(n) =>
      var next := Peek(ts[1..]);
      if next.Identifier? && AllHex(next.name) then Success(FinishHex(Show(n) + next.name), ts[2..])
      else Success(FinishHex(Show(n)), ts[1..])
    case _ => Failure
  }

  function TypeOf(t: Token): Option<Type> {
    if t == Keyword("bytes") then Some(Bytes)
    else if t == Keyword("int") then Some(Int)
    else if t == Keyword("float") then Some(Float)
    else if t == Keyword("string") then Some(String)
    else None
  }

  /** as usize */
  function ToSize(n: int): (r: Size) { n % TwoTo64 }

  /** name interpretation size; a string may leave its size out. */
  function ParseParameter(ts: seq<Token>): (r: Parsed<Parameter>)
    ensures r.Success? ==> |r.rest| < |ts|
  {
    if !Peek(ts).Identifier? || TypeOf(Peek(ts[1..])).None? then Failure
    else
      var name, typ, rest := ts[0].name, TypeOf(Peek(ts[1..])).value, ts[2..];
      if Peek(rest).Integer? then Success(Parameter(name, typ, ToSize(rest[0].value)), rest[1..])
      else if typ == String then Success(Parameter(name, typ, 0), rest)
      else Failure
  }

  function ParseReferences(ts: seq<Token>, refs: seq<BehaviorRef>): (r: Parsed<seq<BehaviorRef>>)
    ensures r.Success? ==> |r.rest| <= |ts| && (Peek(ts).Identifier? ==> |r.rest| < |ts|)
    decreases |ts|
  {
    if !Peek(ts).Identifier? then Success(refs, ts)
    else if Peek(ts[1..]).At? then
      var h := HexString(ts[2..]);
      if h.Failure? then Failure else ParseReferences(h.rest, refs + [BehaviorRef(ts[0].name, h.value)])
    else ParseReferences(ts[1..], refs + [BehaviorRef(ts[0].name, "")])
  }

  /** Each further line of references replaces those before. */
  function ParseRequires(ts: seq<Token>, refs: seq<BehaviorRef>): (r: Parsed<seq<BehaviorRef>>)
    ensures r.Success? ==> |r.rest| <= |ts|
    decreases |ts|
  {
    var rest := SkipNewlines(ts);
    if !Peek(rest).Identifier? then Success(refs, rest)
    else
      var p := ParseReferences(rest, []);
      if p.Failure? then Failure else ParseRequires(p.rest, p.value)
  }

  function GuaranteeOf(t: Token): Option<Guarantee> {
    if t == Keyword("pure") then Some(Pure)
    else if t == Keyword("no_alloc") then Some(NoAlloc)
    else if t == Keyword("writes_output") then Some(WritesOutput)
    else None
  }

  function ParseGuarantees(ts: seq<Token>, gs: seq<Guarantee>): (r: Parsed<seq<Guarantee>>)
    ensures r.Success? && |r.rest| <= |ts|
  {
    var g := GuaranteeOf(Peek(ts));
    if g.Some? then ParseGuarantees(ts[1..], gs + [g.value]) else Success(gs, ts)
  }

  /** The names of a MEMORY clause. */
  function ParseNames(ts: seq<Token>, names: seq<string>): (r: Parsed<seq<string>>)
    ensures r.Success? && |r.rest| <= |ts|
  {
    if Peek(ts).Identifier? then ParseNames(ts[1..], names + [ts[0].name]) else Success(names, ts)
  }

  predicate IsClause(t: Token) {
    t.Keyword? && t.word in {"INPUT", "OUTPUT", "REQUIRES", "GUARANTEES", "MEMORY"}
  }

  /** What follows the keyword of a clause, added to the contract so far. */
  function ParseClause(word: string, ts: seq<Token>, c: Contract): (r: Parsed<Contract>)
    ensures r.Success? ==> |r.rest| <= |ts|
  {
    match word
    case "INPUT" =>
      var p := ParseParameter(ts);
      if p.Failure? then Failure else Success(c.(inputs := c.inputs + [p.value]), p.rest)
    case "OUTPUT" =>
      var p := ParseParameter(ts);
      if p.Failure? then Failure else Success(c.(outputs := c.outputs + [p.value]), p.rest)
    case "REQUIRES" =>
      var p := ParseRequires(ts, []);
      if p.Failure? then Failure else Success(c.(behaviors := p.value, memory := []), p.rest)
    case "GUARANTEES" =>
      var p := ParseGuarantees(ts, []);
      Success(c.(guarantees := p.value), p.rest)
    case _ =>
      var p := ParseNames(ts, []);
      Success(c.(memory := c.memory + p.value), p.rest)
  }

  function ParseContract(ts: seq<Token>, c: Contract): (r: Parsed<Contract>)
    ensures r.Success? ==> |r.rest| <= |ts|
    decreases |ts|
  {
    var rest := SkipNewlines(ts);
    if !IsClause(Peek(rest)) then Success(c, rest)
    else
      var p := ParseClause(rest[0].word, rest[1..], c);
      if p.Failure? then Failure else ParseContract(p.rest, p.value)
  }

  function ParseSections(ts: seq<Token>, e: Entry): (r: Parsed<Entry>)
    decreases |ts|
  {
    var rest := SkipNewlines(ts);
    match Peek(rest)
    case Keyword("CONTRACT") =>
      var p := ParseContract(rest[1..], NoContract);
      if p.Failure? then Failure else ParseSections(p.rest, e.(contract := p.value))
    case Keyword("HASH") =>
      var p := HexString(rest[1..]);
      if p.Failure? then Failure else ParseSections(p.rest, e.(hash := p.value))
    case Keyword("NATIVE") => Success(e, rest[1..])
    case Keyword("END") => Success(e, rest[1..])
    case _ => Failure
  }

  function ParseBehavior(ts: seq<Token>): (r: Parsed<Entry>) {
    var rest := SkipNewlines(ts);
    if Peek(rest) == Keyword("BEHAVIOR") && Peek(rest[1..]).Identifier?
    then ParseSections(rest[2..], Entry(rest[1].name, NoContract, ""))
    else Failure
  }

  // ----- the parser object ------------------------------------------------------------------

  class ParserObject {
    const tokens: seq<Token>
    var pos: nat

    constructor (tokens: seq<Token>)
      ensures this.tokens == tokens && pos == 0
    {
      this.tokens, pos := tokens, 0;
    }

    ghost predicate Valid()
      reads this
    {
      pos <= |tokens|
    }

    /** What has not been read yet. */
    ghost function Rest(): seq<Token>
      reads this
      requires Valid()
    {
      tokens[pos..]
    }

    function Current(): (t: Token)
      reads this
      requires Valid()
      ensures t == Peek(Rest())
    {
      if pos < |tokens| then tokens[pos] else Eof
    }

    method Advance()
      requires Valid() && Rest() != []
      modifies this
      ensures Valid() && Rest() == old(Rest())[1..]
    {
      pos := pos + 1;
    }

    method SkipLines()
      requires Valid()
      modifies this
      ensures Valid() && Rest() == SkipNewlines(old(Rest()))
    {
      while Current().Newline? || Current().Indent?
        invariant Valid() && SkipNewlines(Rest()) == SkipNewlines(old(Rest()))
        decreases |tokens| - pos
      {
        Advance();
      }
    }

    method ExpectHexString() returns (r: Option<string>)
      requires Valid()
      modifies this
      ensures Valid() && Returns(r, HexString(old(Rest())), Rest())
    {
      var result;
      match Current() {
        case Identifier(s) =>
          Advance();
          result := s;
        case Integer(n) =>
          Advance();
          result := Show(n);
          if Current().Identifier? && AllHex(Current().name) {
            result := result + Current().name;
            Advance();
          }
        case _ => return None;
      }
      if result != [] && |result| < 8 && AllHex(result) {
        result := Zeros(8 - |result|) + result;
      }
      return Some(Lower(result));
    }

    method ExpectParameter() returns (r: Option<Parameter>)
      requires Valid()
      modifies this
      ensures Valid() && Returns(r, ParseParameter(old(Rest())), Rest())
    {
      if !Current().Identifier? {
        return None;
      }
      var name := Current().name;
      Advance();
      var typ := TypeOf(Current());
      if typ.None? {
        return None;
      }
      Advance();
      var size: Size := 0;
      if !(typ.value == String && !Current().Integer?) {
        if !Current().Integer? {
          return None;
        }
        size := ToSize(Current().value);
        Advance();
      }
      return Some(Parameter(name, typ.value, size));
    }

    method ExpectReferences() returns (r: Option<seq<BehaviorRef>>)
      requires Valid()
      modifies this
      ensures Valid() && Returns(r, ParseReferences(old(Rest()), []), Rest())
    {
      var refs: seq<BehaviorRef> := [];
      while Current().Identifier?
        invariant Valid() && ParseReferences(Rest(), refs) == ParseReferences(old(Rest()), [])
        decreases |tokens| - pos
      {
        var name := Current().name;
        Advance();
        var hash := "";
        if Current().At? {
          Advance();
          var h := ExpectHexString();
          if h.None? {
            return None;
          }
          hash := h.value;
        }
        refs := refs + [BehaviorRef(name, hash)];
      }
      return Some(refs);
    }

    method ExpectRequires() returns (r: Option<seq<BehaviorRef>>)
      requires Valid()
      modifies this
      ensures Valid() && Returns(r, ParseRequires(old(Rest()), []), Rest())
    {
      var refs: seq<BehaviorRef> := [];
      SkipLines();
      SkipAgain(old(Rest()));
      while Current().Identifier?
        invariant Valid() && SkipNewlines(Rest()) == Rest()
        invariant ParseRequires(Rest(), refs) == ParseRequires(old(Rest()), [])
        decreases |tokens| - pos
      {
        var more := ExpectReferences();
        if more.None? {
          return None;
        }
        refs := more.value;
        SkipAgain(Rest());
        SkipLines();
      }
      return Some(refs);
    }

    method ExpectGuarantees() returns (gs: seq<Guarantee>)
      requires Valid()
      modifies this
      ensures Valid() && Success(gs, Rest()) == ParseGuarantees(old(Rest()), [])
    {
      gs := [];
      while GuaranteeOf(Current()).Some?
        invariant Valid() && ParseGuarantees(Rest(), gs) == ParseGuarantees(old(Rest()), [])
        decreases |tokens| - pos
      {
        gs := gs + [GuaranteeOf(Current()).value];
        Advance();
      }
    }

    method ExpectNames() returns (names: seq<string>)
      requires Valid()
      modifies this
      ensures Valid() && Success(names, Rest()) == ParseNames(old(Rest()), [])
    {
      names := [];
      while Current().Identifier?
        invariant Valid() && ParseNames(Rest(), names) == ParseNames(old(Rest()), [])
        decreases |tokens| - pos
      {
        names := names + [Current().name];
        Advance();
      }
    }

    method ExpectClause(word: string, c: Contract) returns (r: Option<Contract>)
      requires Valid()
      modifies this
      ensures Valid() && Returns(r, ParseClause(word, old(Rest()), c), Rest())
    {
      match word {
        case "INPUT" =>
          var p := ExpectParameter();
          if p.None? {
            return None;
          }
          return Some(c.(inputs := c.inputs + [p.value]));
        case "OUTPUT" =>
          var p := ExpectParameter();
          if p.None? {
            return None;
          }
          return Some(c.(outputs := c.outputs + [p.value]));
        case "REQUIRES" =>
          var p := ExpectRequires();
          if p.None? {
            return None;
          }
          return Some(c.(behaviors := p.value, memory := []));
        case "GUARANTEES" =>
          var gs := ExpectGuarantees();
          return Some(c.(guarantees := gs));
        case _ =>
          var names := ExpectNames();
          return Some(c.(memory := c.memory + names));
      }
    }

    method ExpectContract() returns (r: Option<Contract>)
      requires Valid()
      modifies this
      ensures Valid() && Returns(r, ParseContract(old(Rest()), NoContract), Rest())
    {
      var c := NoContract;
      while true
        invariant Valid() && ParseContract(Rest(), c) == ParseContract(old(Rest()), NoContract)
        decreases |tokens| - pos
      {
        SkipLines();
        if !IsClause(Current()) {
          return Some(c);
        }
        var word := Current().word;
        Advance();
        var next := ExpectClause(word, c);
        if next.None? {
          return None;
        }
        c := next.value;
      }
    }

    method ExpectBehavior() returns (r: Option<Entry>)
      requires Valid()
      modifies this
      ensures Valid() && Returns(r, ParseBehavior(old(Rest())), Rest())
    {
      SkipLines();
      if Current() != Keyword("BEHAVIOR") {
        return None;
      }
      Advance();
      if !Current().Identifier? {
        return None;
      }
      var name := Current().name;
      Advance();
      r := ExpectSections(Entry(name, NoContract, ""));
    }

    method ExpectSections(start: Entry) returns (r: Option<Entry>)
      requires Valid()
      modifies this
      ensures Valid() && Returns(r, ParseSections(old(Rest()), start), Rest())
    {
      var e := start;
      while true
        invariant Valid() && ParseSections(Rest(), e) == ParseSections(old(Rest()), start)
        decreases |tokens| - pos
      {
        SkipLines();
        var t := Current();
        if t == Keyword("CONTRACT") {
          Advance();
          var c := ExpectContract();
          if c.None? {
            return None;
          }
          e := e.(contract := c.value);
        } else if t == Keyword("HASH") {
          Advance();
          var h := ExpectHexString();
          if h.None? {
            return None;
          }
          e := e.(hash := h.value);
        } else if t == Keyword("NATIVE") || t == Keyword("END") {
          Advance();
          return Some(e);
        } else {
          return None;
        }
      }
    }
  }

  /** A method's result and the tokens it left are those of the parsed value. */
  ghost predicate Returns<T>(r: Option<T>, p: Parsed<T>, rest: seq<Token>) {
    match r
    case Some(v) => p == Success(v, rest)
    case None => p.Failure?
  }

  lemma {:induction false} SkipAgain(ts: seq<Token>)
    ensures SkipNewlines(SkipNewlines(ts)) == SkipNewlines(ts)
    ensures forall refs :: ParseRequires(SkipNewlines(ts), refs) == ParseRequires(ts, refs)
  {
    SkipTwice(ts);
  }

  lemma {:induction false} SkipTwice(ts: seq<Token>)
    ensures SkipNewlines(SkipNewlines(ts)) == SkipNewlines(ts)
  {
    if Peek(ts).Newline? || Peek(ts).Indent? {
      SkipTwice(ts[1..]);
    }
  }
}
