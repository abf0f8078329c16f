/** Inputs that do not survive printing and reading, compiler/src/main.rs:558-604 and 678-715: a
    size of 64 bits, and a pin of digits only before a hexadecimal name. */
module LostEntries {
  import opened Common
  import opened Contracts
  import opened Lexer
  import opened Parser
  import opened LexedText
  import opened Registry
  import opened RoundTrip

  // ----- a size that is lost --------------------------------------------------------------------------

  /** A contract with the line INPUT buf bytes -1, as an author may write it. */
  const NegativeText: string :=
    "BEHAVIOR" + (" " + ("f" + ("\n" + ("CONTRACT" + ("\n"
      + (("  " + ("INPUT" + (" " + ("buf" + (" " + ("bytes" + (" " + ("-1" + "\n"))))))))
      + FinalText("00000000")))))))

  const NegativeSize := Entry("f", Contract([Parameter("buf", Bytes, TwoTo64 - 1)], [], [], [], []), "00000000")

  lemma {:induction false} MinusOne(next: Stepper, t: string)
    requires IsNext(next) && EndsNumber(t)
    ensures next(Mid(" " + ("-1" + t))) == (Ok(Integer(-1)), Mid(t))
  {
    MinusOneRead(t);
    BlankStep(next, "-1" + t);
    assert next(Mid("-1" + t)) == Next(Mid("-1" + t));
  }

  lemma {:induction false} MinusOneRead(t: string)
    requires EndsNumber(t)
    ensures Next(Mid("-1" + t)) == (Ok(Integer(-1)), Mid(t))
  {
    var s := "-1" + t;
    assert s[0] == '-' && s[1] == '1' && Span(s, IsBlank) == 0 && s[0..] == s;
    assert s[1..] == "1" + t;
    MinusOneNumber(t);
  }

  lemma {:induction false} MinusOneNumber(t: string)
    requires EndsNumber(t)
    ensures ReadNumber('-', "1" + t) == (Ok(Integer(-1)), t)
  {
    SpanOver("1", t, IsDigit);
    var r := "1" + t;
    assert r[..1] == "1" && r[1..] == t && "1"[..0] == "";
    assert Value("1", 10) == 1;
  }

  lemma {:induction false} NegativeLine(next: Stepper, t: string)
    requires IsNext(next)
    ensures Emits(next, Bol("  " + ("INPUT" + (" " + ("buf" + (" " + ("bytes" + (" " + ("-1" + ("\n" + t))))))))),
                  [Indent(2)] + ([Keyword("INPUT")]
                      + ([Identifier("buf")] + ([Keyword("bytes")] + ([Integer(-1)] + [Newline])))), Bol(t))
  {
    var s5 := "\n" + t;
    LineStep(next, t);
    EmitsOne(next, Mid(s5), Newline, Bol(t));
    MinusOne(next, s5);
    EmitsNext(next, Mid(" " + ("-1" + s5)), Integer(-1), Mid(s5), [Newline], Bol(t));
    PlainNames();
    ParameterStarts(next, "INPUT", "buf", Bytes, " " + ("-1" + s5), [Integer(-1)] + [Newline], Bol(t));
  }

  lemma {:induction false} PlainNames()
    ensures IsName("buf") && IsName("f") && IsPin("00000000")
  {
    if IsKeyword("buf") && "buf" !in LowerWords {
      UpperKeywords("buf");
    }
    if IsKeyword("f") && "f" !in LowerWords {
      UpperKeywords("f");
    }
  }

  const NegativeTokens: seq<Token> :=
    [Keyword("BEHAVIOR")] + ([Identifier("f")] + ([Newline] + ([Keyword("CONTRACT")] + ([Newline]
      + (([Indent(2)] + ([Keyword("INPUT")]
          + ([Identifier("buf")] + ([Keyword("bytes")] + ([Integer(-1)] + [Newline])))))
      + FinalTokens("00000000"))))))

  lemma {:induction false} NegativeLexes(next: Stepper)
    requires IsNext(next)
    ensures Emits(next, Bol(NegativeText), NegativeTokens, Mid(""))
  {
    var final := FinalText("00000000");
    var line := "  " + ("INPUT" + (" " + ("buf" + (" " + ("bytes" + (" " + ("-1" + "\n")))))));
    var ts := [Indent(2)] + ([Keyword("INPUT")]
        + ([Identifier("buf")] + ([Keyword("bytes")] + ([Integer(-1)] + [Newline]))));
    PlainNames();
    FinalLexes(next, "00000000");
    NegativeLine(next, final);
    Assoc8("  ", "INPUT", " ", "buf", " ", "bytes", " ", "-1", "\n", final);
    EmitsConcat(next, Bol(line + final), ts, Bol(final), FinalTokens("00000000"), Mid(""));
    SectionHeadLexes(next, line + final, ts + FinalTokens("00000000"), Mid(""));
    HeaderLexes(next, "f", "CONTRACT" + ("\n" + (line + final)),
                [Keyword("CONTRACT")] + ([Newline] + (ts + FinalTokens("00000000"))), Mid(""));
  }

  lemma {:induction false} NegativeContract(parse: ContractParser, ts: seq<Token>)
    requires IsParse(parse) && AfterContract(ts)
    ensures parse([Indent(2)]
            + ([Keyword("INPUT")] + ([Identifier("buf")] + ([Keyword("bytes")] + ([Integer(-1)] + ([Newline] + ts))))),
                  NoContract) == Success(NegativeSize.contract, ts)
  {
    var u3 := [Integer(-1)] + ([Newline] + ts);
    var u2 := [Keyword("bytes")] + u3;
    var u1 := [Identifier("buf")] + u2;
    assert u1[1..] == u2 && u1[2..] == u3 && u3[1..] == [Newline] + ts;
    var p := Parameter("buf", Bytes, TwoTo64 - 1);
    assert ParseParameter(u1) == Success(p, [Newline] + ts);
    ParameterClause("INPUT", u1, NoContract, p, [Newline] + ts);
    assert WithParameters(NoContract, "INPUT", [p]) == NegativeSize.contract;
    ClauseStep(parse, "INPUT", u1, NoContract, NegativeSize.contract, [Newline] + ts);
    BreakStep(parse, Newline, ts, NegativeSize.contract);
    assert parse(ts, NegativeSize.contract) == ParseContract(ts, NegativeSize.contract);
  }

  /** The text is read as a size of 2^64 - 1; the entry is printed, and cannot be read again. */
  lemma {:induction false} NegativeSizeIsLost()
    ensures Lex(NegativeText) == Tokens(NegativeTokens + [Eof])
    ensures ReadBlock(NegativeText) == Some(NegativeSize)
    ensures EntryOk(NegativeSize) && ReadBlock(Block(NegativeSize)) == None
  {
    NextIsNext();
    NegativeLexes(Next);
    EmitsLex(Next, Bol(NegativeText), NegativeTokens, Mid(""));
    EndOfText();
    assert NegativeText[0] == 'B';
    NegativeParses();
    PlainNames();
    assert NegativeSize.contract.inputs[0].size >= TwoTo63;
    BlockRoundTrip(NegativeSize);
  }

  lemma {:induction false} NegativeTokensThen(final: seq<Token>, line: seq<Token>)
    requires final == FinalTokens("00000000") + [Eof]
    requires line == [Indent(2)]
             + ([Keyword("INPUT")] + ([Identifier("buf")]
                 + ([Keyword("bytes")] + ([Integer(-1)] + ([Newline] + final)))))
    ensures NegativeTokens + [Eof]
            == [Keyword("BEHAVIOR")] + ([Identifier("f")] + ([Newline] + ([Keyword("CONTRACT")] + ([Newline] + line))))
  {
  }

  lemma {:induction false} NegativeSections(final: seq<Token>, line: seq<Token>)
    requires final == FinalTokens("00000000") + [Eof]
    requires line == [Indent(2)]
             + ([Keyword("INPUT")] + ([Identifier("buf")]
                 + ([Keyword("bytes")] + ([Integer(-1)] + ([Newline] + final)))))
    ensures ParseSections([Newline] + ([Keyword("CONTRACT")] + ([Newline] + line)), Entry("f", NoContract, ""))
            == Success(NegativeSize, [Eof])
  {
    SectionStart(Entry("f", NoContract, ""), line);
    ParseIsParse();
    PlainNames();
    NegativeContract(ParseContract, final);
    FinalParses(Entry("f", NegativeSize.contract, ""), "00000000");
  }

  lemma {:induction false} NegativeParses()
    ensures ParseBehavior(NegativeTokens + [Eof]) == Success(NegativeSize, [Eof])
  {
    var final := FinalTokens("00000000") + [Eof];
    var line := [Indent(2)] + ([Keyword("INPUT")]
        + ([Identifier("buf")] + ([Keyword("bytes")] + ([Integer(-1)] + ([Newline] + final)))));
    NegativeTokensThen(final, line);
    HeaderParses("f", [Newline] + ([Keyword("CONTRACT")] + ([Newline] + line)));
    NegativeSections(final, line);
  }

  // ----- a name that is swallowed ---------------------------------------------------------------------

  /** A contract with the line REQUIRES p@pin name. */
  function PinnedText(p: string, pin: string, name: string): string {
    "BEHAVIOR" + (" " + ("f" + ("\n" + ("CONTRACT" + ("\n"
      + ("  " + ("REQUIRES" + ((ReferenceText(BehaviorRef(p, pin)) + (" " + name)) + "\n"))
          + FinalText("00000000")))))))
  }

  function PinnedTokens(p: string, pin: string, name: string): seq<Token> {
    [Keyword("BEHAVIOR")] + ([Identifier("f")] + ([Newline] + ([Keyword("CONTRACT")] + ([Newline]
      + (PinnedLine(p, pin, name) + FinalTokens("00000000"))))))
  }

  function PinnedLine(p: string, pin: string, name: string): seq<Token> {
    [Indent(2)] + ([Keyword("REQUIRES")] + ((ReferenceTokens(BehaviorRef(p, pin)) + [Identifier(name)]) + [Newline]))
  }

  lemma {:induction false} PinnedLineLexes(next: Stepper, p: string, pin: string, name: string, t: string)
    requires IsNext(next) && IsName(p) && IsPin(pin) && IsName(name)
    ensures Emits(next, Bol("  " + ("REQUIRES" + ((ReferenceText(BehaviorRef(p, pin)) + (" " + name)) + "\n")) + t),
                  PinnedLine(p, pin, name), Bol(t))
  {
    var r, s := BehaviorRef(p, pin), " " + (name + ("\n" + t));
    NameStep(next, name, "\n" + t);
    EmitsOne(next, Mid(s), Identifier(name), Mid("\n" + t));
    ReferenceLexes(next, r, s);
    EmitsConcat(next, Mid(ReferenceText(r) + s), ReferenceTokens(r), Mid(s), [Identifier(name)], Mid("\n" + t));
    var line := ReferenceText(r) + (" " + name);
    assert line + ("\n" + t) == ReferenceText(r) + s;
    ClauseLineLexes(next, "REQUIRES", line, ReferenceTokens(r) + [Identifier(name)], t);
  }

  lemma {:induction false} PinnedLexes(next: Stepper, p: string, pin: string, name: string)
    requires IsNext(next) && IsName(p) && IsPin(pin) && IsName(name)
    ensures Emits(next, Bol(PinnedText(p, pin, name)), PinnedTokens(p, pin, name), Mid(""))
  {
    var final := FinalText("00000000");
    var line := "  " + ("REQUIRES" + ((ReferenceText(BehaviorRef(p, pin)) + (" " + name)) + "\n"));
    var ts := PinnedLine(p, pin, name) + FinalTokens("00000000");
    PlainNames();
    FinalLexes(next, "00000000");
    PinnedLineLexes(next, p, pin, name, final);
    EmitsConcat(next, Bol(line + final), PinnedLine(p, pin, name), Bol(final), FinalTokens("00000000"), Mid(""));
    SectionHeadLexes(next, line + final, ts, Mid(""));
    HeaderLexes(next, "f", "CONTRACT" + ("\n" + (line + final)), [Keyword("CONTRACT")] + ([Newline] + ts), Mid(""));
  }

  /** What is read as the pin of p. */
  function Swallowed(pin: string, name: string): string { FinishHex(ShowNat(Value(pin, 10)) + name) }

  lemma {:induction false} ReferenceSwallows(p: string, pin: string, name: string, ts: seq<Token>)
    requires IsPin(pin) && AllDigits(pin) && AllHex(name) && Peek(ts).Newline?
    ensures ParseReferences(ReferenceTokens(BehaviorRef(p, pin)) + ([Identifier(name)] + ts), [])
         == Success([BehaviorRef(p, Swallowed(pin, name))], ts)
  {
    var n := Value(pin, 10);
    assert Span(pin, IsDigit) == 8 by {
      SpanIs(pin, 8, IsDigit);
    }
    ReferenceTokensThen(BehaviorRef(p, pin), [Identifier(name)] + ts);
    SplitParses(n, name, ts);
    assert PinTokens(pin) + ([Identifier(name)] + ts) == [Integer(n)] + [Identifier(name)] + ts;
    var rs := [BehaviorRef(p, Swallowed(pin, name))];
    assert [] + rs == rs;
    assert ParseReferences(ts, rs) == Success(rs, ts);
  }

  lemma {:induction false} RequiresSwallows(p: string, pin: string, name: string, ts: seq<Token>)
    requires IsPin(pin) && AllDigits(pin) && AllHex(name) && AfterContract(ts)
    ensures ParseRequires(ReferenceTokens(BehaviorRef(p, pin)) + ([Identifier(name)] + ([Newline] + ts)), [])
         == Success([BehaviorRef(p, Swallowed(pin, name))], ts)
  {
    var rest := [Newline] + ts;
    var us := ReferenceTokens(BehaviorRef(p, pin)) + ([Identifier(name)] + rest);
    var rs := [BehaviorRef(p, Swallowed(pin, name))];
    ReferenceTokensThen(BehaviorRef(p, pin), [Identifier(name)] + rest);
    ReferenceSwallows(p, pin, name, rest);
    assert SkipNewlines(us) == us;
    assert rest[1..] == ts && SkipNewlines(rest) == ts;
    assert ParseRequires(rest, rs) == Success(rs, ts);
  }

  lemma {:induction false} PinnedLineThen(p: string, pin: string, name: string, ts: seq<Token>)
    ensures PinnedLine(p, pin, name) + ts
         == [Indent(2)] + ([Keyword("REQUIRES")]
              + (ReferenceTokens(BehaviorRef(p, pin)) + ([Identifier(name)] + ([Newline] + ts))))
  {
    var r := ReferenceTokens(BehaviorRef(p, pin));
    assert r + [Identifier(name)] + [Newline] + ts == r + ([Identifier(name)] + ([Newline] + ts));
  }

  /** What the contract parser makes of the clause. */
  lemma {:induction false} PinnedContract(parse: ContractParser, p: string, pin: string, name: string, ts: seq<Token>)
    requires IsParse(parse) && IsPin(pin) && AllDigits(pin) && AllHex(name) && AfterContract(ts)
    ensures parse(PinnedLine(p, pin, name) + ts, NoContract)
         == Success(NoContract.(behaviors := [BehaviorRef(p, Swallowed(pin, name))]), ts)
  {
    var us := ReferenceTokens(BehaviorRef(p, pin)) + ([Identifier(name)] + ([Newline] + ts));
    RequiresSwallows(p, pin, name, ts);
    PinnedLineThen(p, pin, name, ts);
    ClauseEnds(parse, us, [BehaviorRef(p, Swallowed(pin, name))], ts);
  }

  lemma {:induction false} ClauseEnds(parse: ContractParser, us: seq<Token>, rs: seq<BehaviorRef>, ts: seq<Token>)
    requires IsParse(parse) && AfterContract(ts) && ParseRequires(us, []) == Success(rs, ts)
    ensures parse([Indent(2)] + ([Keyword("REQUIRES")] + us), NoContract) == Success(NoContract.(behaviors := rs), ts)
  {
    var d := NoContract.(behaviors := rs);
    ClauseStep(parse, "REQUIRES", us, NoContract, d, ts);
    assert parse(ts, d) == ParseContract(ts, d);
  }

  lemma {:induction false} PinnedParses(p: string, pin: string, name: string)
    requires IsPin(pin) && AllDigits(pin) && AllHex(name)
    ensures ParseBehavior(PinnedTokens(p, pin, name) + [Eof])
         == Success(Entry("f", NoContract.(behaviors := [BehaviorRef(p, Swallowed(pin, name))]), "00000000"), [Eof])
  {
    var final := FinalTokens("00000000") + [Eof];
    var line := PinnedLine(p, pin, name);
    var head := [Newline] + ([Keyword("CONTRACT")] + ([Newline] + (line + final)));
    Assoc5([Newline], [Keyword("CONTRACT")], [Newline], line, FinalTokens("00000000"), [Eof]);
    assert PinnedTokens(p, pin, name) + [Eof] == [Keyword("BEHAVIOR")] + ([Identifier("f")] + head);
    HeaderParses("f", head);
    SectionStart(Entry("f", NoContract, ""), line + final);
    ParseIsParse();
    PlainNames();
    PinnedContract(ParseContract, p, pin, name, final);
    FinalParses(Entry("f", NoContract.(behaviors := [BehaviorRef(p, Swallowed(pin, name))]), ""), "00000000");
  }

  lemma {:induction false} PinnedTokensOfText(next: Stepper, p: string, pin: string, name: string)
    requires IsNext(next) && IsName(p) && IsPin(pin) && IsName(name)
    ensures LexFrom(Bol(PinnedText(p, pin, name))) == Tokens(PinnedTokens(p, pin, name) + [Eof])
  {
    PinnedLexes(next, p, pin, name);
    EmitsLex(next, Bol(PinnedText(p, pin, name)), PinnedTokens(p, pin, name), Mid(""));
    EndOfText();
  }

  /** Whatever the names and the pin: a hexadecimal name after a pin of digits only is read as the
      end of that pin and required no more. */
  lemma {:induction false} NameIsSwallowed(p: string, pin: string, name: string)
    requires IsName(p) && IsPin(pin) && AllDigits(pin) && IsName(name) && AllHex(name)
    ensures ReadBlock(PinnedText(p, pin, name))
         == Some(Entry("f", NoContract.(behaviors := [BehaviorRef(p, Swallowed(pin, name))]), "00000000"))
  {
    NextIsNext();
    PinnedTokensOfText(Next, p, pin, name);
    PinnedStart(p, pin, name);
    PinnedParses(p, pin, name);
  }

  lemma {:induction false} PinnedStart(p: string, pin: string, name: string)
    ensures Start(PinnedText(p, pin, name)) == Bol(PinnedText(p, pin, name))
  {
    assert PinnedText(p, pin, name)[0] == 'B';
  }

  lemma {:induction false} ZerosStart(k: nat, s: string)
    ensures k > 0 ==> (Zeros(k) + s)[0] == '0'
  {
  }

  /** Unless the pin begins with a zero, what is read is pin and name in one. */
  lemma {:induction false} SwallowedIsBoth(pin: string, name: string)
    requires IsPin(pin) && AllDigits(pin) && pin[0] != '0' && name != ""
    ensures Swallowed(pin, name) == Lower(pin + name)
  {
    var show := ShowNat(Value(pin, 10));
    ShownLosesZeros(pin);
    ZerosStart(|pin| - |show|, show);
    assert Zeros(0) + show == show;
  }

  /** REQUIRES p@12345678 add requires p with the pin 12345678add, and not add; a registry entry with
      that pin before add is lost. */
  lemma {:induction false} DigitPinIsLost()
    ensures ReadBlock(PinnedText("p", "12345678", "add"))
         == Some(Entry("f", NoContract.(behaviors := [BehaviorRef("p", "12345678add")]), "00000000"))
    ensures var rs := [BehaviorRef("p", "12345678"), BehaviorRef("add", "00000000")];
      ReadBlock(Block(Entry("f", NoContract.(behaviors := rs), "00000000"))) == None
  {
    PinnedNames();
    NameIsSwallowed("p", "12345678", "add");
    SwallowedIsBoth("12345678", "add");
    DigitPinEntryIsLost();
  }

  lemma {:induction false} DigitPinEntryIsLost()
    ensures var rs := [BehaviorRef("p", "12345678"), BehaviorRef("add", "00000000")];
      ReadBlock(Block(Entry("f", NoContract.(behaviors := rs), "00000000"))) == None
  {
    PinnedNames();
    var rs := [BehaviorRef("p", "12345678"), BehaviorRef("add", "00000000")];
    PlainNames();
    assert Ambiguous(rs);
    BlockRoundTrip(Entry("f", NoContract.(behaviors := rs), "00000000"));
  }

  lemma {:induction false} PinnedNames()
    ensures IsName("p") && IsName("add") && AllHex("add") && IsPin("12345678") && AllDigits("12345678")
    ensures Lower("12345678" + "add") == "12345678add"
  {
    if IsKeyword("p") && "p" !in LowerWords {
      UpperKeywords("p");
    }
    HexIsNoKeyword("add");
    LowerKeeps("12345678add");
  }
}
