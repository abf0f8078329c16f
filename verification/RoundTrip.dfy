/** Printing a registry and reading it back, compiler/src/main.rs:558-604 and 678-715. */
module RoundTrip {
  import opened Common
  import opened Contracts
  import opened Lexer
  import opened Parser
  import opened LexedText
  import opened Registry

  // ----- pins -----------------------------------------------------------------------------

  lemma {:induction false} LowerKeeps(s: string)
    requires AllLowerHex(s)
    ensures Lower(s) == s
  {
  }

  lemma {:induction false} FinishPads(show: string, b: string, a: string, k: nat)
    requires a == Zeros(k) + show && show != [] && AllDigits(a) && AllLowerHex(b) && |a| + |b| == 8
    ensures FinishHex(show + b) == a + b
  {
    var x := show + b;
    assert Zeros(k) + x == a + b;
    forall i | 0 <= i < |x| ensures IsHex(x[i]) {
      assert i < |show| ==> x[i] == a[k + i];
      assert i >= |show| ==> x[i] == b[i - |show|];
    }
    LowerKeeps(a + b);
  }

  /** Zeros lost in the integer part of a split hash come back. */
  lemma {:induction false} FinishRestores(a: string, b: string)
    requires a != [] && AllDigits(a) && AllLowerHex(b) && |a| + |b| == 8
    ensures FinishHex(ShowNat(Value(a, 10)) + b) == a + b
  {
    ShownLosesZeros(a);
    var show := ShowNat(Value(a, 10));
    FinishPads(show, b, a, |a| - |show|);
  }

  predicate HexName(t: Token) { t.Identifier? && AllHex(t.name) }

  lemma {:induction false} SplitParses(n: nat, b: string, ts: seq<Token>)
    requires AllHex(b)
    ensures HexString([Integer(n)] + [Identifier(b)] + ts) == Success(FinishHex(ShowNat(n) + b), ts)
  {
    var us := [Integer(n)] + [Identifier(b)] + ts;
    assert us[1..][0] == Identifier(b) && us[2..] == ts;
  }

  lemma {:induction false} PinPieces(pin: string, d: nat)
    requires IsPin(pin) && d == Span(pin, IsDigit)
    ensures AllDigits(pin[..d]) && AllLowerHex(pin[d..]) && AllHex(pin[d..]) && pin[..d] + pin[d..] == pin
  {
    forall i | 0 <= i < |pin[d..]| ensures IsLowerHex(pin[d..][i]) {
      assert pin[d..][i] == pin[d + i];
    }
  }

  lemma {:induction false} PiecesParse(a: string, b: string, ts: seq<Token>)
    requires a != [] && AllDigits(a) && AllLowerHex(b) && AllHex(b) && |a| + |b| == 8
    ensures HexString([Integer(Value(a, 10))] + [Identifier(b)] + ts) == Success(a + b, ts)
  {
    FinishRestores(a, b);
    SplitParses(Value(a, 10), b, ts);
  }

  lemma {:induction false} PinSplits(pin: string, ts: seq<Token>)
    requires IsPin(pin) && 0 < Span(pin, IsDigit) < |pin|
    ensures HexString(PinTokens(pin) + ts) == Success(pin, ts)
  {
    var d := Span(pin, IsDigit);
    PinPieces(pin, d);
    PiecesParse(pin[..d], pin[d..], ts);
  }

  /** A pin is read back, unless it is all digits and a hexadecimal name follows. */
  lemma {:induction false} PinParses(pin: string, ts: seq<Token>)
    requires IsPin(pin) && !(AllDigits(pin) && HexName(Peek(ts)))
    ensures HexString(PinTokens(pin) + ts) == Success(pin, ts)
  {
    var d := Span(pin, IsDigit);
    if d == 0 {
      LowerKeeps(pin);
      assert ([Identifier(pin)] + ts)[1..] == ts;
    } else if d == |pin| {
      FinishRestores(pin, "");
      assert ShowNat(Value(pin, 10)) + "" == ShowNat(Value(pin, 10)) && pin + "" == pin;
      assert ([Integer(Value(pin, 10))] + ts)[1..] == ts;
    } else {
      PinSplits(pin, ts);
    }
  }

  /** Otherwise the name is swallowed. */
  lemma {:induction false} PinRuns(pin: string, ts: seq<Token>)
    requires IsPin(pin) && AllDigits(pin) && HexName(Peek(ts))
    ensures HexString(PinTokens(pin) + ts).Success? && HexString(PinTokens(pin) + ts).rest == ts[1..]
  {
    assert Span(pin, IsDigit) == 8 by {
      SpanIs(pin, 8, IsDigit);
    }
    var us := [Integer(Value(pin, 10))] + ts;
    assert us[1..] == ts && us[2..] == ts[1..];
  }

  // ----- references ----------------------------------------------------------------------------

  lemma {:induction false} ReferenceTokensThen(r: BehaviorRef, ts: seq<Token>)
    ensures var us := ReferenceTokens(r) + ts;
      && us[0] == Identifier(r.name) && us[1..][0] == At && us[2..] == PinTokens(r.hash) + ts
  {
  }

  lemma {:induction false} ReferenceParses(r: BehaviorRef, ts: seq<Token>, acc: seq<BehaviorRef>)
    requires ReferenceOk(r) && !(AllDigits(r.hash) && HexName(Peek(ts)))
    ensures ParseReferences(ReferenceTokens(r) + ts, acc) == ParseReferences(ts, acc + [r])
  {
    ReferenceTokensThen(r, ts);
    PinParses(r.hash, ts);
  }

  lemma {:induction false} ReferenceRuns(r: BehaviorRef, ts: seq<Token>, acc: seq<BehaviorRef>)
    requires ReferenceOk(r) && AllDigits(r.hash) && HexName(Peek(ts)) && Peek(ts[1..]).At?
    ensures var p := ParseReferences(ReferenceTokens(r) + ts, acc); p.Success? && p.rest == ts[1..]
  {
    ReferenceTokensThen(r, ts);
    PinRuns(r.hash, ts);
  }

  predicate AllOk(rs: seq<BehaviorRef>) { forall i :: 0 <= i < |rs| ==> ReferenceOk(rs[i]) }

  /** What comes after the first reference. */
  lemma {:induction false} RestOfReferences(rs: seq<BehaviorRef>, ts: seq<Token>)
    requires rs != []
    ensures ReferencesTokens(rs) + ts == ReferenceTokens(rs[0]) + (ReferencesTokens(rs[1..]) + ts)
    ensures var us := ReferencesTokens(rs) + ts; us[0] == Identifier(rs[0].name) && Peek(us[1..]).At?
  {
    var more := ReferencesTokens(rs[1..]);
    assert ReferenceTokens(rs[0]) + more + ts == ReferenceTokens(rs[0]) + (more + ts);
    ReferenceTokensThen(rs[0], more + ts);
  }

  lemma {:induction false} NothingRuns(rs: seq<BehaviorRef>, ts: seq<Token>)
    requires rs != [] && Peek(ts).Newline? && !Ambiguous(rs)
    ensures !(AllDigits(rs[0].hash) && HexName(Peek(ReferencesTokens(rs[1..]) + ts)))
  {
    if |rs| == 1 {
      assert ReferencesTokens(rs[1..]) + ts == ts;
    } else {
      RestOfReferences(rs[1..], ts);
    }
  }

  type ReferenceParser = (seq<Token>, seq<BehaviorRef>) -> Parsed<seq<BehaviorRef>>

  ghost predicate IsReferenceParse(parse: ReferenceParser) {
    forall ts, acc {:trigger ParseReferences(ts, acc)} :: parse(ts, acc) == ParseReferences(ts, acc)
  }

  lemma {:induction false} ReferenceStep(parse: ReferenceParser, rs: seq<BehaviorRef>, ts: seq<Token>,
                                         acc: seq<BehaviorRef>)
    requires IsReferenceParse(parse) && rs != [] && ReferenceOk(rs[0]) && Peek(ts).Newline? && !Ambiguous(rs)
    ensures parse(ReferencesTokens(rs) + ts, acc) == parse(ReferencesTokens(rs[1..]) + ts, acc + [rs[0]])
  {
    var us, more := ReferencesTokens(rs) + ts, ReferencesTokens(rs[1..]) + ts;
    NothingRuns(rs, ts);
    RestOfReferences(rs, ts);
    ReferenceParses(rs[0], more, acc);
    assert parse(us, acc) == ParseReferences(us, acc)
        && parse(more, acc + [rs[0]]) == ParseReferences(more, acc + [rs[0]]);
  }

  lemma {:induction false} NoReference(parse: ReferenceParser, ts: seq<Token>, acc: seq<BehaviorRef>)
    requires IsReferenceParse(parse) && Peek(ts).Newline?
    ensures parse(ts, acc) == Success(acc, ts)
  {
    assert parse(ts, acc) == ParseReferences(ts, acc);
  }

  lemma {:induction false} ReferencesParseBy(parse: ReferenceParser, rs: seq<BehaviorRef>, ts: seq<Token>,
                                             acc: seq<BehaviorRef>)
    requires IsReferenceParse(parse) && AllOk(rs) && Peek(ts).Newline? && !Ambiguous(rs)
    ensures parse(ReferencesTokens(rs) + ts, acc) == Success(acc + rs, ts)
    decreases |rs|
  {
    if rs == [] {
      assert ReferencesTokens(rs) + ts == ts && acc + rs == acc;
      NoReference(parse, ts, acc);
    } else {
      assert ReferenceOk(rs[0]);
      ReferenceStep(parse, rs, ts, acc);
      ReferencesParseBy(parse, rs[1..], ts, acc + [rs[0]]);
      assert acc + [rs[0]] + rs[1..] == acc + rs;
    }
  }

  lemma {:induction false} ReferencesParse(rs: seq<BehaviorRef>, ts: seq<Token>)
    requires AllOk(rs) && Peek(ts).Newline? && !Ambiguous(rs)
    ensures ParseReferences(ReferencesTokens(rs) + ts, []) == Success(rs, ts)
  {
    ReferencesParseBy(ParseReferences, rs, ts, []);
    assert [] + rs == rs;
  }

  /** From the first ambiguity on nothing is read: the parser stops before an @. */
  lemma {:induction false} AmbiguousStops(rs: seq<BehaviorRef>, ts: seq<Token>, acc: seq<BehaviorRef>)
    requires AllOk(rs) && Ambiguous(rs)
    ensures var p := ParseReferences(ReferencesTokens(rs) + ts, acc); p.Success? && Peek(p.rest).At?
    decreases |rs|
  {
    var us := ReferencesTokens(rs[1..]) + ts;
    RestOfReferences(rs, ts);
    RestOfReferences(rs[1..], ts);
    if Runs(rs[0], rs[1]) {
      ReferenceRuns(rs[0], us, acc);
    } else {
      ReferenceParses(rs[0], us, acc);
      AmbiguousStops(rs[1..], ts, acc + [rs[0]]);
    }
  }

  // ----- the REQUIRES line --------------------------------------------------------------------

  /** What follows the line is no further list of references. */
  predicate NoNames(ts: seq<Token>) { !Peek(SkipNewlines(ts)).Identifier? }

  lemma {:induction false} RequiresParse(rs: seq<BehaviorRef>, ts: seq<Token>)
    requires AllOk(rs) && rs != [] && !Ambiguous(rs) && NoNames(ts)
    ensures ParseRequires(ReferencesTokens(rs) + ([Newline] + ts), []) == Success(rs, SkipNewlines(ts))
  {
    var us := [Newline] + ts;
    assert us[1..] == ts && SkipNewlines(us) == SkipNewlines(ts);
    ReferencesParse(rs, us);
    RestOfReferences(rs, us);
    assert ParseRequires(us, rs) == Success(rs, SkipNewlines(ts));
  }

  lemma {:induction false} RequiresStops(rs: seq<BehaviorRef>, ts: seq<Token>)
    requires AllOk(rs) && Ambiguous(rs)
    ensures var p := ParseRequires(ReferencesTokens(rs) + ts, []); p.Success? && Peek(p.rest).At?
  {
    AmbiguousStops(rs, ts, []);
    RestOfReferences(rs, ts);
    var p := ParseReferences(ReferencesTokens(rs) + ts, []);
    assert ParseRequires(p.rest, p.value) == Success(p.value, p.rest);
  }

  lemma {:induction false} RequiresStep(parse: ContractParser, rs: seq<BehaviorRef>, ts: seq<Token>, c: Contract)
    requires IsParse(parse) && AllOk(rs) && !Ambiguous(rs) && NoNames(ts) && c.behaviors == [] && c.memory == []
    ensures parse(RequiresTokens(rs) + ts, c) == parse(ts, c.(behaviors := rs))
  {
    if rs == [] {
      assert RequiresTokens(rs) + ts == ts;
    } else {
      RequiresParse(rs, ts);
      var d := c.(behaviors := rs);
      ClauseStep(parse, "REQUIRES", ReferencesTokens(rs) + ([Newline] + ts), c, d, SkipNewlines(ts));
      SkipStep(parse, ts, d);
      ClauseTokensThen("REQUIRES", ReferencesTokens(rs), ts);
    }
  }

  lemma {:induction false} RequiresBreaks(parse: ContractParser, rs: seq<BehaviorRef>, ts: seq<Token>, c: Contract)
    requires IsParse(parse) && AllOk(rs) && Ambiguous(rs)
    ensures var p := parse(RequiresTokens(rs) + ts, c); p.Success? && Peek(p.rest).At?
  {
    RequiresStops(rs, [Newline] + ts);
    var p := ParseRequires(ReferencesTokens(rs) + ([Newline] + ts), []);
    var d := c.(behaviors := p.value, memory := []);
    ClauseStep(parse, "REQUIRES", ReferencesTokens(rs) + ([Newline] + ts), c, d, p.rest);
    ClauseTokensThen("REQUIRES", ReferencesTokens(rs), ts);
    assert ParseContract(p.rest, d) == Success(d, p.rest);
  }

  // ----- a whole block ---------------------------------------------------------------------------

  /** Whatever follows the clauses starts with a keyword that is none of theirs. */
  predicate AfterContract(ts: seq<Token>) { Peek(ts).Keyword? && !IsClause(Peek(ts)) }

  lemma {:induction false} NoNamesAfter(gs: seq<Guarantee>, ts: seq<Token>)
    requires AfterContract(ts)
    ensures NoNames(GuaranteesTokens(gs) + ts)
  {
    if gs == [] {
      assert GuaranteesTokens(gs) + ts == ts;
    } else {
      var us := GuaranteesTokens(gs) + ts;
      assert us[0] == Indent(2) && us[1..][0] == Keyword("GUARANTEES");
    }
  }

  lemma {:induction false} ParametersDone(parse: ContractParser, c: Contract, ts: seq<Token>)
    requires IsParse(parse) && ContractOk(c)
    ensures parse(ContractTokens(c) + ts, NoContract)
         == parse(RequiresTokens(c.behaviors) + (GuaranteesTokens(c.guarantees) + ts),
             Contract(c.inputs, c.outputs, [], [], []))
  {
    var i, o := ParametersTokens("INPUT", c.inputs), ParametersTokens("OUTPUT", c.outputs);
    var r, g := RequiresTokens(c.behaviors), GuaranteesTokens(c.guarantees);
    Assoc4(i, o, r, g, ts);
    ParametersStep(parse, "INPUT", c.inputs, o + (r + (g + ts)), NoContract);
    assert WithParameters(NoContract, "INPUT", c.inputs) == Contract(c.inputs, [], [], [], []);
    ParametersStep(parse, "OUTPUT", c.outputs, r + (g + ts), Contract(c.inputs, [], [], [], []));
    assert WithParameters(Contract(c.inputs, [], [], [], []), "OUTPUT", c.outputs)
        == Contract(c.inputs, c.outputs, [], [], []);
  }

  lemma {:induction false} Assoc4<T>(a: seq<T>, b: seq<T>, c: seq<T>, d: seq<T>, t: seq<T>)
    ensures a + (b + (c + d)) + t == a + (b + (c + (d + t)))
  {
  }

  /** The registry has no MEMORY lines. */
  function Printed(c: Contract): Contract { c.(memory := []) }

  lemma {:induction false} ContractParses(parse: ContractParser, c: Contract, ts: seq<Token>)
    requires IsParse(parse) && ContractOk(c) && AfterContract(ts) && !Ambiguous(c.behaviors)
    ensures parse(ContractTokens(c) + ts, NoContract) == Success(Printed(c), ts)
  {
    ParametersDone(parse, c, ts);
    var d := Contract(c.inputs, c.outputs, [], [], []);
    NoNamesAfter(c.guarantees, ts);
    RequiresStep(parse, c.behaviors, GuaranteesTokens(c.guarantees) + ts, d);
    GuaranteesStep(parse, c.guarantees, ts, d.(behaviors := c.behaviors));
    assert parse(ts, Printed(c)) == ParseContract(ts, Printed(c));
  }

  lemma {:induction false} ContractBreaks(parse: ContractParser, c: Contract, ts: seq<Token>)
    requires IsParse(parse) && ContractOk(c) && Ambiguous(c.behaviors)
    ensures var p := parse(ContractTokens(c) + ts, NoContract); p.Success? && Peek(p.rest).At?
  {
    ParametersDone(parse, c, ts);
    RequiresBreaks(parse, c.behaviors, GuaranteesTokens(c.guarantees) + ts, Contract(c.inputs, c.outputs, [], [], []));
  }

  lemma {:induction false} ParseIsParse()
    ensures IsParse(ParseContract)
  {
  }

  lemma {:induction false} FinalParses(e: Entry, hash: string)
    requires IsPin(hash)
    ensures ParseSections(FinalTokens(hash) + [Eof], e) == Success(e.(hash := hash), [Eof])
  {
    var end := [Newline] + [Keyword("END")] + [Eof];
    PinParses(hash, end);
    assert FinalTokens(hash) + [Eof] == [Keyword("HASH")] + (PinTokens(hash) + end);
    HashSection(PinTokens(hash) + end, e, hash, end);
    EndParses(e.(hash := hash));
  }

  lemma {:induction false} HashSection(ts: seq<Token>, e: Entry, hash: string, rest: seq<Token>)
    requires HexString(ts) == Success(hash, rest)
    ensures ParseSections([Keyword("HASH")] + ts, e) == ParseSections(rest, e.(hash := hash))
  {
    var us := [Keyword("HASH")] + ts;
    assert SkipNewlines(us) == us && us[1..] == ts;
  }

  lemma {:induction false} EndParses(e: Entry)
    ensures ParseSections([Newline] + [Keyword("END")] + [Eof], e) == Success(e, [Eof])
  {
    var ts := [Newline] + [Keyword("END")] + [Eof];
    assert ts[1..] == [Keyword("END"), Eof];
    assert SkipNewlines(ts) == [Keyword("END"), Eof];
    assert [Keyword("END"), Eof][1..] == [Eof];
  }

  /** The parser at the CONTRACT keyword. */
  lemma {:induction false} SectionStart(e: Entry, ts: seq<Token>)
    ensures var p := ParseContract(ts, NoContract);
      ParseSections([Newline] + ([Keyword("CONTRACT")] + ([Newline] + ts)), e)
        == if p.Failure? then Failure else ParseSections(p.rest, e.(contract := p.value))
  {
    var us := [Keyword("CONTRACT")] + ([Newline] + ts);
    assert ([Newline] + us)[1..] == us && us[1..] == [Newline] + ts;
    assert SkipNewlines([Newline] + us) == us;
    ParseIsParse();
    BreakStep(ParseContract, Newline, ts, NoContract);
  }

  /** The CONTRACT section and what follows it. */
  lemma {:induction false} SectionsParse(e: Entry, c: Contract, hash: string)
    requires ContractOk(c) && IsPin(hash)
    ensures var ts := [Newline]
            + ([Keyword("CONTRACT")] + ([Newline] + (ContractTokens(c) + (FinalTokens(hash) + [Eof]))));
      ParseSections(ts, e)
        == if Ambiguous(c.behaviors) then Failure else Success(Entry(e.name, Printed(c), hash), [Eof])
  {
    var final := FinalTokens(hash) + [Eof];
    var body := ContractTokens(c) + final;
    ParseIsParse();
    SectionStart(e, body);
    assert final[0] == Keyword("HASH");
    if Ambiguous(c.behaviors) {
      ContractBreaks(ParseContract, c, final);
      StopsAtAt(ParseContract(body, NoContract).rest, e.(contract := ParseContract(body, NoContract).value));
    } else {
      ContractParses(ParseContract, c, final);
      FinalParses(e.(contract := Printed(c)), hash);
    }
  }

  lemma {:induction false} StopsAtAt(ts: seq<Token>, e: Entry)
    requires Peek(ts).At?
    ensures ParseSections(ts, e).Failure?
  {
  }

  function ReadBlock(text: string): Option<Entry> {
    var l := Lex(text);
    if l.LexError? then None
    else
      var p := ParseBehavior(l.tokens);
      if p.Failure? then None else Some(p.value)
  }

  lemma {:induction false} HeaderParses(name: string, ts: seq<Token>)
    ensures ParseBehavior([Keyword("BEHAVIOR")] + ([Identifier(name)] + ts))
            == ParseSections(ts, Entry(name, NoContract, ""))
  {
    var us := [Keyword("BEHAVIOR")] + ([Identifier(name)] + ts);
    assert us[1..] == [Identifier(name)] + ts && us[2..] == ts;
  }

  lemma {:induction false} Assoc5<T>(a: seq<T>, b: seq<T>, c: seq<T>, d: seq<T>, e: seq<T>, t: seq<T>)
    ensures a + (b + (c + (d + e))) + t == a + (b + (c + (d + (e + t))))
  {
    Assoc4(b, c, d, e, t);
    assert a + (b + (c + (d + e))) + t == a + ((b + (c + (d + e))) + t);
  }

  lemma {:induction false} EntryTokensThen(e: Entry, x: seq<Token>)
    requires x == [Newline] + ([Keyword("CONTRACT")] + ([Newline] + (ContractTokens(e.contract) + FinalTokens(e.hash))))
    ensures EntryTokens(e) + [Eof] == [Keyword("BEHAVIOR")] + ([Identifier(e.name)] + (x + [Eof]))
  {
    assert EntryTokens(e) == [Keyword("BEHAVIOR")] + ([Identifier(e.name)] + x);
    assert [Keyword("BEHAVIOR")] + ([Identifier(e.name)] + x) + [Eof]
        == [Keyword("BEHAVIOR")] + ([Identifier(e.name)] + (x + [Eof]));
  }

  lemma {:induction false} EntryParses(e: Entry)
    requires EntryOk(e)
    ensures ParseBehavior(EntryTokens(e) + [Eof])
         == if Ambiguous(e.contract.behaviors) then Failure else Success(e.(contract := Printed(e.contract)), [Eof])
  {
    var x := [Newline] + ([Keyword("CONTRACT")] + ([Newline] + (ContractTokens(e.contract) + FinalTokens(e.hash))));
    EntryTokensThen(e, x);
    HeaderParses(e.name, x + [Eof]);
    Assoc5([Newline], [Keyword("CONTRACT")], [Newline], ContractTokens(e.contract), FinalTokens(e.hash), [Eof]);
    SectionsParse(Entry(e.name, NoContract, ""), e.contract, e.hash);
  }

  /** What cannot be printed and read back. */
  predicate Lost(c: Contract) { Ambiguous(c.behaviors) || Oversized(c) }

  /** A printed block is read back exactly, but for its MEMORY, except that one is rejected in which a pin of digits
      only is directly followed by a hexadecimal name, or some size takes 64 bits. */
  lemma {:induction false} BlockRoundTrip(e: Entry)
    requires EntryOk(e)
    ensures ReadBlock(Block(e)) == if Lost(e.contract) then None else Some(e.(contract := Printed(e.contract)))
  {
    if Oversized(e.contract) {
      BlockIsNoText(e);
    } else {
      BlockTokens(e);
      EntryParses(e);
    }
  }

  /** Reading a block, by the lexer and the parser objects. */
  method ReadEntry(text: string) returns (r: Option<Entry>)
    ensures r == ReadBlock(text)
  {
    var lexed := Tokenize(text);
    if lexed.LexError? {
      return None;
    }
    var parser := new ParserObject(lexed.tokens);
    assert parser.Rest() == lexed.tokens;
    r := parser.ExpectBehavior();
  }
}
