/** Clauses of a contract that a registry entry need not have, compiler/src/parser.rs:97-135 and
    352-380: sizes left out, MEMORY names, and hashes in capitals. */
module Clauses {
  import opened Contracts
  import opened Lexer
  import opened Parser
  import opened Registry

  // ----- parameters ------------------------------------------------------------------------

  /** Only a string may leave its size out. */
  lemma {:induction false} SizeLeftOut(name: string, word: string, ts: seq<Token>)
    requires !Peek(ts).Integer?
    ensures var p := ParseParameter([Identifier(name)] + ([Keyword(word)] + ts));
      if word == "string" then p == Success(Parameter(name, String, 0), ts) else p.Failure?
  {
    var us := [Identifier(name)] + ([Keyword(word)] + ts);
    assert us[1..] == [Keyword(word)] + ts && us[2..] == ts;
  }

  /** With a size, the four type words are read as their types; a negative size counts from 2^64
      down. */
  lemma {:induction false} SizeGiven(name: string, word: string, n: int, ts: seq<Token>)
    requires -TwoTo63 <= n < TwoTo63
    ensures var p := ParseParameter([Identifier(name)] + ([Keyword(word)] + ([Integer(n)] + ts)));
      var size: Size := if n < 0 then n + TwoTo64 else n;
      && (word == "int" ==> p == Success(Parameter(name, Int, size), ts))
      && (word == "float" ==> p == Success(Parameter(name, Float, size), ts))
      && (word == "bytes" ==> p == Success(Parameter(name, Bytes, size), ts))
      && (word == "string" ==> p == Success(Parameter(name, String, size), ts))
      && (word != "int" && word != "float" && word != "bytes" && word != "string" ==> p.Failure?)
  {
    var u2 := [Integer(n)] + ts;
    var us := [Identifier(name)] + ([Keyword(word)] + u2);
    assert us[1..] == [Keyword(word)] + u2 && us[2..] == u2 && u2[1..] == ts;
  }

  // ----- MEMORY ------------------------------------------------------------------------------

  function NameTokens(names: seq<string>): seq<Token> {
    seq(|names|, i requires 0 <= i < |names| => Identifier(names[i]))
  }

  lemma {:induction false} NamesParse(names: seq<string>, ts: seq<Token>, acc: seq<string>)
    requires !Peek(ts).Identifier?
    ensures ParseNames(NameTokens(names) + ts, acc) == Success(acc + names, ts)
    decreases |names|
  {
    var us := NameTokens(names) + ts;
    if names == [] {
      assert us == ts && acc + names == acc;
    } else {
      assert us[0] == Identifier(names[0]);
      assert us[1..] == NameTokens(names[1..]) + ts;
      NamesParse(names[1..], ts, acc + [names[0]]);
      assert acc + [names[0]] + names[1..] == acc + names;
    }
  }

  function MemoryTokens(names: seq<string>): seq<Token> {
    [Indent(2)] + ([Keyword("MEMORY")] + (NameTokens(names) + [Newline]))
  }

  /** A MEMORY clause adds its names to those before. */
  lemma {:induction false} MemoryAdds(parse: ContractParser, names: seq<string>, ts: seq<Token>, c: Contract)
    requires IsParse(parse)
    ensures parse(MemoryTokens(names) + ts, c) == parse(ts, c.(memory := c.memory + names))
  {
    var rest := [Newline] + ts;
    var us, d := NameTokens(names) + rest, c.(memory := c.memory + names);
    NamesParse(names, rest, []);
    assert [] + names == names;
    assert ParseClause("MEMORY", us, c) == Success(d, rest);
    MemoryThen(names, ts);
    BreakStep(parse, Indent(2), [Keyword("MEMORY")] + us, c);
    MemoryClause(parse, us, c, d, rest);
    BreakStep(parse, Newline, ts, d);
  }

  lemma {:induction false} MemoryThen(names: seq<string>, ts: seq<Token>)
    ensures MemoryTokens(names) + ts == [Indent(2)] + ([Keyword("MEMORY")] + (NameTokens(names) + ([Newline] + ts)))
  {
    var a := NameTokens(names);
    assert a + [Newline] + ts == a + ([Newline] + ts);
  }

  lemma {:induction false} MemoryClause(parse: ContractParser, us: seq<Token>, c: Contract, d: Contract,
                                        rest: seq<Token>)
    requires IsParse(parse) && ParseClause("MEMORY", us, c) == Success(d, rest)
    ensures parse([Keyword("MEMORY")] + us, c) == parse(rest, d)
  {
    var vs := [Keyword("MEMORY")] + us;
    assert vs[1..] == us && SkipNewlines(vs) == vs;
    assert parse(vs, c) == ParseContract(vs, c) && parse(rest, d) == ParseContract(rest, d);
  }

  // ----- hashes ---------------------------------------------------------------------------------

  /** The same digits, in small letters. */
  predicate SameDigits(a: string, b: string) {
    |a| == |b| && forall i :: 0 <= i < |a| ==> IsLowerHex(a[i]) && DigitValue(a[i]) == DigitValue(b[i])
  }

  /** A hash of eight hexadecimal digits is read as the same digits in small letters, and a shorter
      one as if zeros stood before it. */
  lemma {:induction false} HashLowered(s: string, ts: seq<Token>)
    requires s != [] && AllHex(s) && |s| <= 8
    ensures var h := HexString([Identifier(s)] + ts);
      h.Success? && h.rest == ts && SameDigits(h.value, Zeros(8 - |s|) + s)
  {
    assert ([Identifier(s)] + ts)[1..] == ts;
    var padded := Zeros(8 - |s|) + s;
    assert |s| == 8 ==> padded == s;
    assert FinishHex(s) == Lower(padded);
    forall i | 0 <= i < 8 ensures IsLowerHex(Lower(padded)[i])
        && DigitValue(Lower(padded)[i]) == DigitValue(padded[i]) {
      assert IsHex(padded[i]);
      LoweredDigit(padded[i]);
    }
  }

  lemma {:induction false} LoweredDigit(c: char)
    requires IsHex(c)
    ensures IsLowerHex(LowerChar(c)) && DigitValue(LowerChar(c)) == DigitValue(c)
  {
  }

  /** Nothing else is a hash. */
  lemma {:induction false} NoHash(ts: seq<Token>)
    ensures HexString(ts).Success? <==> Peek(ts).Identifier? || Peek(ts).Integer?
  {
  }

  // ----- guarantees and clauses ----------------------------------------------------------------------

  /** The guarantee words; any other token ends the list. */
  lemma {:induction false} GuaranteeWords(ts: seq<Token>, gs: seq<Guarantee>)
    ensures ParseGuarantees([Keyword("pure")] + ts, gs) == ParseGuarantees(ts, gs + [Pure])
    ensures ParseGuarantees([Keyword("no_alloc")] + ts, gs) == ParseGuarantees(ts, gs + [NoAlloc])
    ensures ParseGuarantees([Keyword("writes_output")] + ts, gs) == ParseGuarantees(ts, gs + [WritesOutput])
    ensures Peek(ts) != Keyword("pure") && Peek(ts) != Keyword("no_alloc") && Peek(ts) != Keyword("writes_output") ==>
              ParseGuarantees(ts, gs) == Success(gs, ts)
  {
    assert ([Keyword("pure")] + ts)[1..] == ts;
    assert ([Keyword("no_alloc")] + ts)[1..] == ts;
    assert ([Keyword("writes_output")] + ts)[1..] == ts;
  }

  /** What each clause word changes: an INPUT the inputs, an OUTPUT the outputs, and so on. */
  lemma {:induction false} ClauseChanges(word: string, ts: seq<Token>, c: Contract)
    requires word == "INPUT" || word == "OUTPUT" || word == "REQUIRES" || word == "GUARANTEES" || word == "MEMORY"
    ensures var p := ParseClause(word, ts, c); p.Success? ==>
      && (word == "INPUT" ==> exists x :: p.value == c.(inputs := c.inputs + [x]))
      && (word == "OUTPUT" ==> exists x :: p.value == c.(outputs := c.outputs + [x]))
      && (word == "REQUIRES" ==> p.value == c.(behaviors := p.value.behaviors, memory := []))
      && (word == "GUARANTEES" ==> p.value == c.(guarantees := p.value.guarantees))
      && (word == "MEMORY" ==> exists names :: p.value == c.(memory := c.memory + names))
  {
  }
}
