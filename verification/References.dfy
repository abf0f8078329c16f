/** REQUIRES clauses in full, compiler/src/parser.rs:381-419: references with and without a pin, lines
    that continue a clause, and further clauses. */
module References {
  import opened Common
  import opened Contracts
  import opened Lexer
  import opened Parser
  import opened LexedText
  import opened Registry
  import opened RoundTrip

  /** A reference without a pin has the empty hash. */
  predicate MixedOk(rs: seq<BehaviorRef>) {
    forall i :: 0 <= i < |rs| ==> IsName(rs[i].name) && (rs[i].hash == "" || IsPin(rs[i].hash))
  }

  /** A pin of digits only would swallow the hexadecimal name after it. */
  predicate Swallows(r: BehaviorRef, next: BehaviorRef) { r.hash != "" && AllDigits(r.hash) && AllHex(next.name) }

  predicate Clear(rs: seq<BehaviorRef>) { forall i,
                  j :: 0 <= i < |rs| && j == i + 1 < |rs| ==> !Swallows(rs[i], rs[j]) }

  function MixedToken(r: BehaviorRef): seq<Token> {
    if r.hash == "" then [Identifier(r.name)] else ReferenceTokens(r)
  }

  function MixedTokens(rs: seq<BehaviorRef>): seq<Token> {
    if rs == [] then [] else MixedToken(rs[0]) + MixedTokens(rs[1..])
  }

  /** What may follow a list of references. */
  predicate Stops(ts: seq<Token>) { !Peek(ts).Identifier? && !Peek(ts).At? }

  // ----- one list -----------------------------------------------------------------------------

  lemma {:induction false} MixedStarts(rs: seq<BehaviorRef>, ts: seq<Token>)
    requires rs != []
    ensures MixedTokens(rs) + ts == MixedToken(rs[0]) + (MixedTokens(rs[1..]) + ts)
    ensures Peek(MixedTokens(rs) + ts) == Identifier(rs[0].name)
  {
    var r, more := MixedToken(rs[0]), MixedTokens(rs[1..]);
    assert r + more + ts == r + (more + ts);
    assert r[0] == Identifier(rs[0].name);
  }

  lemma {:induction false} UnpinnedParses(name: string, us: seq<Token>, acc: seq<BehaviorRef>)
    requires !Peek(us).At?
    ensures ParseReferences([Identifier(name)] + us, acc) == ParseReferences(us, acc + [BehaviorRef(name, "")])
  {
    assert ([Identifier(name)] + us)[1..] == us;
  }

  lemma {:induction false} MixedStep(parse: ReferenceParser, rs: seq<BehaviorRef>, ts: seq<Token>,
                                     acc: seq<BehaviorRef>)
    requires IsReferenceParse(parse) && rs != [] && MixedOk(rs) && Clear(rs) && Stops(ts)
    ensures parse(MixedTokens(rs) + ts, acc) == parse(MixedTokens(rs[1..]) + ts, acc + [rs[0]])
  {
    var r, us := rs[0], MixedTokens(rs[1..]) + ts;
    MixedStarts(rs, ts);
    if |rs| > 1 {
      MixedStarts(rs[1..], ts);
      assert !Swallows(rs[0], rs[1]);
    } else {
      assert us == ts;
    }
    if r.hash == "" {
      UnpinnedParses(r.name, us, acc);
      assert r == BehaviorRef(r.name, "");
    } else {
      ReferenceParses(r, us, acc);
    }
    assert parse(MixedTokens(rs) + ts, acc) == ParseReferences(MixedTokens(rs) + ts, acc);
    assert parse(us, acc + [r]) == ParseReferences(us, acc + [r]);
  }

  lemma {:induction false} RestIsClear(rs: seq<BehaviorRef>)
    requires rs != [] && MixedOk(rs) && Clear(rs)
    ensures MixedOk(rs[1..]) && Clear(rs[1..])
  {
    var more := rs[1..];
    forall i, j | 0 <= i < |more| && j == i + 1 < |more| ensures !Swallows(more[i], more[j]) {
      assert more[i] == rs[i + 1] && more[j] == rs[j + 1];
    }
  }

  lemma {:induction false} MixedParseBy(parse: ReferenceParser, rs: seq<BehaviorRef>, ts: seq<Token>,
                                        acc: seq<BehaviorRef>)
    requires IsReferenceParse(parse) && MixedOk(rs) && Clear(rs) && Stops(ts)
    ensures parse(MixedTokens(rs) + ts, acc) == Success(acc + rs, ts)
    decreases |rs|
  {
    if rs == [] {
      assert MixedTokens(rs) + ts == ts && acc + rs == acc;
      assert parse(ts, acc) == ParseReferences(ts, acc);
    } else {
      MixedStep(parse, rs, ts, acc);
      RestIsClear(rs);
      MixedParseBy(parse, rs[1..], ts, acc + [rs[0]]);
      assert acc + [rs[0]] + rs[1..] == acc + rs;
    }
  }

  /** Any list of references in which no pin swallows a name, some pinned and some not, is read back
      as that list. */
  lemma {:induction false} MixedParse(rs: seq<BehaviorRef>, ts: seq<Token>)
    requires MixedOk(rs) && Clear(rs) && Stops(ts)
    ensures ParseReferences(MixedTokens(rs) + ts, []) == Success(rs, ts)
  {
    MixedParseBy(ParseReferences, rs, ts, []);
    assert [] + rs == rs;
  }

  // ----- one clause, on one line or several ------------------------------------------------------

  /** The lines of a clause: each but the first is indented, none is empty. */
  function LinesTokens(lines: seq<seq<BehaviorRef>>): seq<Token> {
    if lines == [] then [] else MixedTokens(lines[0]) + ([Newline] + ([Indent(4)] + LinesTokens(lines[1..])))
  }

  predicate LinesOk(lines: seq<seq<BehaviorRef>>) {
    forall i :: 0 <= i < |lines| ==> lines[i] != [] && MixedOk(lines[i]) && Clear(lines[i])
  }

  type RequiresParser = (seq<Token>, seq<BehaviorRef>) -> Parsed<seq<BehaviorRef>>

  ghost predicate IsRequiresParse(parse: RequiresParser) {
    forall ts, refs {:trigger ParseRequires(ts, refs)} :: parse(ts, refs) == ParseRequires(ts, refs)
  }

  lemma {:induction false} BreakSkips(parse: RequiresParser, ts: seq<Token>, refs: seq<BehaviorRef>)
    requires IsRequiresParse(parse)
    ensures parse([Newline] + ([Indent(4)] + ts), refs) == parse(ts, refs)
  {
    var us := [Indent(4)] + ts;
    assert ([Newline] + us)[1..] == us && us[1..] == ts;
    assert SkipNewlines([Newline] + us) == SkipNewlines(ts);
    assert parse([Newline] + us, refs) == ParseRequires([Newline] + us, refs)
        && parse(ts, refs) == ParseRequires(ts, refs);
  }

  lemma {:induction false} LineParses(parse: RequiresParser, line: seq<BehaviorRef>, ts: seq<Token>,
                                      refs: seq<BehaviorRef>)
    requires IsRequiresParse(parse) && line != [] && MixedOk(line) && Clear(line) && Stops(ts)
    ensures parse(MixedTokens(line) + ts, refs) == parse(ts, line)
  {
    var us := MixedTokens(line) + ts;
    MixedParse(line, ts);
    MixedStarts(line, ts);
    assert SkipNewlines(us) == us;
    assert parse(us, refs) == ParseRequires(us, refs) && parse(ts, line) == ParseRequires(ts, line);
  }

  /** Each line of a clause replaces the lines before it: the last one counts. */
  lemma {:induction false} LastLineCounts(parse: RequiresParser, lines: seq<seq<BehaviorRef>>, ts: seq<Token>,
                                          refs: seq<BehaviorRef>)
    requires IsRequiresParse(parse) && LinesOk(lines) && NoNames(ts)
    ensures parse(LinesTokens(lines) + ts, refs)
         == Success(if lines == [] then refs else lines[|lines| - 1], SkipNewlines(ts))
    decreases |lines|
  {
    if lines == [] {
      assert LinesTokens(lines) + ts == ts;
      assert parse(ts, refs) == ParseRequires(ts, refs);
    } else {
      var more := LinesTokens(lines[1..]) + ts;
      LinesThen(lines, ts);
      assert LinesOk(lines[1..]);
      LineParses(parse, lines[0], [Newline] + ([Indent(4)] + more), refs);
      BreakSkips(parse, more, lines[0]);
      LastLineCounts(parse, lines[1..], ts, lines[0]);
    }
  }

  lemma {:induction false} LinesThen(lines: seq<seq<BehaviorRef>>, ts: seq<Token>)
    requires lines != []
    ensures LinesTokens(lines) + ts
         == MixedTokens(lines[0]) + ([Newline] + ([Indent(4)] + (LinesTokens(lines[1..]) + ts)))
  {
    var a, b := MixedTokens(lines[0]), LinesTokens(lines[1..]);
    assert a + ([Newline] + ([Indent(4)] + b)) + ts == a + ([Newline] + ([Indent(4)] + (b + ts)));
  }

  // ----- several clauses ------------------------------------------------------------------------------

  function ClausesTokens(clauses: seq<seq<BehaviorRef>>): seq<Token> {
    if clauses == [] then []
    else [Indent(2)] + ([Keyword("REQUIRES")] + (MixedTokens(clauses[0]) + ([Newline] + ClausesTokens(clauses[1..]))))
  }

  predicate ClausesOk(clauses: seq<seq<BehaviorRef>>) {
    forall i :: 0 <= i < |clauses| ==> MixedOk(clauses[i]) && Clear(clauses[i])
  }

  lemma {:induction false} ClausesThen(clauses: seq<seq<BehaviorRef>>, ts: seq<Token>)
    requires clauses != []
    ensures ClausesTokens(clauses) + ts
         == [Indent(2)] + ([Keyword("REQUIRES")]
              + (MixedTokens(clauses[0]) + ([Newline] + (ClausesTokens(clauses[1..]) + ts))))
  {
    var a, b := MixedTokens(clauses[0]), ClausesTokens(clauses[1..]);
    assert a + ([Newline] + b) + ts == a + ([Newline] + (b + ts));
    assert ([Indent(2)] + ([Keyword("REQUIRES")] + (a + ([Newline] + b)))) + ts
        == [Indent(2)] + ([Keyword("REQUIRES")] + ((a + ([Newline] + b)) + ts));
  }

  /** Also a clause without references is one. */
  lemma {:induction false} ClauseRequires(line: seq<BehaviorRef>, ts: seq<Token>)
    requires MixedOk(line) && Clear(line) && NoNames(ts)
    ensures ParseRequires(MixedTokens(line) + ([Newline] + ts), []) == Success(line, SkipNewlines(ts))
  {
    var us := [Newline] + ts;
    assert us[1..] == ts && SkipNewlines(us) == SkipNewlines(ts);
    if line == [] {
      assert MixedTokens(line) + us == us;
    } else {
      LineParses(ParseRequires, line, us, []);
    }
  }

  lemma {:induction false} MoreClausesNoNames(clauses: seq<seq<BehaviorRef>>, ts: seq<Token>)
    requires NoNames(ts)
    ensures NoNames(ClausesTokens(clauses) + ts)
  {
    if clauses == [] {
      assert ClausesTokens(clauses) + ts == ts;
    } else {
      ClausesThen(clauses, ts);
      var us := ClausesTokens(clauses) + ts;
      assert us[0] == Indent(2) && us[1..][0] == Keyword("REQUIRES");
    }
  }

  /** Of several REQUIRES clauses, pinned and unpinned references in any mixture, the last one counts. */
  lemma {:induction false} LastClauseCounts(parse: ContractParser, clauses: seq<seq<BehaviorRef>>, ts: seq<Token>,
                                            c: Contract)
    requires IsParse(parse) && ClausesOk(clauses) && NoNames(ts)
    ensures parse(ClausesTokens(clauses) + ts, c)
         == parse(ts, if clauses == [] then c else c.(behaviors := clauses[|clauses| - 1], memory := []))
    decreases |clauses|
  {
    if clauses == [] {
      assert ClausesTokens(clauses) + ts == ts;
    } else {
      var more := ClausesTokens(clauses[1..]) + ts;
      var d := c.(behaviors := clauses[0], memory := []);
      ClausesThen(clauses, ts);
      MoreClausesNoNames(clauses[1..], ts);
      ClauseRequires(clauses[0], more);
      ClauseStep(parse, "REQUIRES", MixedTokens(clauses[0]) + ([Newline] + more), c, d, SkipNewlines(more));
      SkipStep(parse, more, d);
      assert ClausesOk(clauses[1..]);
      LastClauseCounts(parse, clauses[1..], ts, d);
    }
  }

  /** The whole contract section: whatever REQUIRES clauses it has, the contract requires exactly the
      references of the last. */
  lemma {:induction false} ContractRequiresLast(clauses: seq<seq<BehaviorRef>>, ts: seq<Token>)
    requires clauses != [] && ClausesOk(clauses) && AfterContract(ts)
    ensures ParseContract(ClausesTokens(clauses) + ts, NoContract)
         == Success(NoContract.(behaviors := clauses[|clauses| - 1]), ts)
  {
    LastClauseCounts(ParseContract, clauses, ts, NoContract);
  }

  // ----- from the text on -----------------------------------------------------------------------------

  function MixedText(rs: seq<BehaviorRef>): string {
    if rs == [] then ""
    else (if rs[0].hash == "" then " " + rs[0].name else ReferenceText(rs[0])) + MixedText(rs[1..])
  }

  function ClausesText(clauses: seq<seq<BehaviorRef>>): string {
    if clauses == [] then ""
    else "  " + ("REQUIRES" + (MixedText(clauses[0]) + "\n")) + ClausesText(clauses[1..])
  }

  lemma {:induction false} MixedEndsPin(rs: seq<BehaviorRef>, t: string)
    requires EndsPin(t)
    ensures EndsPin(MixedText(rs) + t)
  {
    if rs == [] {
      assert MixedText(rs) + t == t;
    }
  }

  lemma {:induction false} OneLexes(next: Stepper, r: BehaviorRef, t: string)
    requires IsNext(next) && IsName(r.name) && (r.hash == "" || IsPin(r.hash)) && EndsPin(t)
    ensures Emits(next, Mid((if r.hash == "" then " " + r.name else ReferenceText(r)) + t), MixedToken(r), Mid(t))
  {
    if r.hash == "" {
      NameStep(next, r.name, t);
      EmitsOne(next, Mid(" " + (r.name + t)), Identifier(r.name), Mid(t));
      assert " " + r.name + t == " " + (r.name + t);
    } else {
      ReferenceLexes(next, r, t);
    }
  }

  lemma {:induction false} MixedLexes(next: Stepper, rs: seq<BehaviorRef>, t: string)
    requires IsNext(next) && MixedOk(rs) && EndsPin(t)
    ensures Emits(next, Mid(MixedText(rs) + t), MixedTokens(rs), Mid(t))
    decreases |rs|
  {
    if rs == [] {
      assert MixedText(rs) + t == t;
    } else {
      var one := if rs[0].hash == "" then " " + rs[0].name else ReferenceText(rs[0]);
      var more := MixedText(rs[1..]) + t;
      MixedLexes(next, rs[1..], t);
      MixedEndsPin(rs[1..], t);
      OneLexes(next, rs[0], more);
      assert one + MixedText(rs[1..]) + t == one + more;
      EmitsConcat(next, Mid(one + more), MixedToken(rs[0]), Mid(more), MixedTokens(rs[1..]), Mid(t));
    }
  }

  /** The tokens of a clause of at least one reference. */
  lemma {:induction false} ClauseLexed(next: Stepper, rs: seq<BehaviorRef>, t: string)
    requires IsNext(next) && rs != [] && MixedOk(rs)
    ensures Emits(next, Bol("  " + ("REQUIRES" + (MixedText(rs) + "\n")) + t),
                  [Indent(2)] + ([Keyword("REQUIRES")] + (MixedTokens(rs) + [Newline])), Bol(t))
  {
    MixedLexes(next, rs, "\n" + t);
    assert MixedText(rs)[0] == ' ';
    ClauseLineLexes(next, "REQUIRES", MixedText(rs), MixedTokens(rs), t);
  }

  lemma {:induction false} ClauseTokensJoin(rs: seq<BehaviorRef>, more: seq<Token>)
    ensures [Indent(2)] + ([Keyword("REQUIRES")] + (MixedTokens(rs) + [Newline])) + more
         == [Indent(2)] + ([Keyword("REQUIRES")] + (MixedTokens(rs) + ([Newline] + more)))
  {
    var a := MixedTokens(rs);
    assert a + [Newline] + more == a + ([Newline] + more);
    assert [Keyword("REQUIRES")] + (a + [Newline]) + more == [Keyword("REQUIRES")] + (a + ([Newline] + more));
  }

  predicate NoneEmpty(clauses: seq<seq<BehaviorRef>>) { forall i :: 0 <= i < |clauses| ==> clauses[i] != [] }

  lemma {:induction false} ClausesLexed(next: Stepper, clauses: seq<seq<BehaviorRef>>, t: string)
    requires IsNext(next) && ClausesOk(clauses) && NoneEmpty(clauses)
    ensures Emits(next, Bol(ClausesText(clauses) + t), ClausesTokens(clauses), Bol(t))
    decreases |clauses|
  {
    if clauses == [] {
      assert ClausesText(clauses) + t == t;
    } else {
      assert ClausesOk(clauses[1..]) && NoneEmpty(clauses[1..]);
      ClausesLexed(next, clauses[1..], t);
      OneMoreClause(next, clauses[0], ClausesText(clauses[1..]), ClausesTokens(clauses[1..]), t);
    }
  }

  lemma {:induction false} OneMoreClause(next: Stepper, rs: seq<BehaviorRef>, text: string, ts: seq<Token>, t: string)
    requires IsNext(next) && rs != [] && MixedOk(rs) && Emits(next, Bol(text + t), ts, Bol(t))
    ensures Emits(next, Bol("  " + ("REQUIRES" + (MixedText(rs) + "\n")) + text + t),
                  [Indent(2)] + ([Keyword("REQUIRES")] + (MixedTokens(rs) + ([Newline] + ts))), Bol(t))
  {
    var line, more := "  " + ("REQUIRES" + (MixedText(rs) + "\n")), text + t;
    ClauseLexed(next, rs, more);
    assert line + text + t == line + more;
    EmitsConcat(next, Bol(line + more), [Indent(2)] + ([Keyword("REQUIRES")] + (MixedTokens(rs) + [Newline])),
                Bol(more), ts, Bol(t));
    ClauseTokensJoin(rs, ts);
  }

  /** BEHAVIOR name, a CONTRACT of these clauses, and its hash. */
  function ClausesBlock(name: string, clauses: seq<seq<BehaviorRef>>, hash: string): string {
    "BEHAVIOR" + (" " + (name + ("\n" + ("CONTRACT" + ("\n" + (ClausesText(clauses) + FinalText(hash)))))))
  }

  lemma {:induction false} ClausesBlockLexes(next: Stepper, name: string, clauses: seq<seq<BehaviorRef>>, hash: string)
    requires IsNext(next) && IsName(name) && IsPin(hash) && ClausesOk(clauses) && NoneEmpty(clauses)
    ensures LexFrom(Bol(ClausesBlock(name, clauses, hash)))
         == Tokens([Keyword("BEHAVIOR")] + ([Identifier(name)] + ([Newline] + ([Keyword("CONTRACT")] + ([Newline]
              + (ClausesTokens(clauses) + FinalTokens(hash)))))) + [Eof])
  {
    var s, ts := ClausesText(clauses) + FinalText(hash), ClausesTokens(clauses) + FinalTokens(hash);
    FinalLexes(next, hash);
    ClausesLexed(next, clauses, FinalText(hash));
    EmitsConcat(next, Bol(s), ClausesTokens(clauses), Bol(FinalText(hash)), FinalTokens(hash), Mid(""));
    SectionHeadLexes(next, s, ts, Mid(""));
    HeaderLexes(next, name, "CONTRACT" + ("\n" + s), [Keyword("CONTRACT")] + ([Newline] + ts), Mid(""));
    EmitsLex(next, Bol(ClausesBlock(name, clauses, hash)),
             [Keyword("BEHAVIOR")] + ([Identifier(name)] + ([Newline] + ([Keyword("CONTRACT")] + ([Newline] + ts)))),
                 Mid(""));
    EndOfText();
  }

  lemma {:induction false} ClausesBlockParses(name: string, clauses: seq<seq<BehaviorRef>>, hash: string)
    requires clauses != [] && ClausesOk(clauses) && IsPin(hash)
    ensures ParseBehavior([Keyword("BEHAVIOR")] + ([Identifier(name)] + ([Newline] + ([Keyword("CONTRACT")] + ([Newline]
              + (ClausesTokens(clauses) + FinalTokens(hash)))))) + [Eof])
         == Success(Entry(name, NoContract.(behaviors := clauses[|clauses| - 1]), hash), [Eof])
  {
    var final, body := FinalTokens(hash) + [Eof], ClausesTokens(clauses);
    var head := [Newline] + ([Keyword("CONTRACT")] + ([Newline] + (body + final)));
    Assoc5([Newline], [Keyword("CONTRACT")], [Newline], body, FinalTokens(hash), [Eof]);
    assert [Keyword("BEHAVIOR")] + ([Identifier(name)] + ([Newline] + ([Keyword("CONTRACT")] + ([Newline]
             + (body + FinalTokens(hash)))))) + [Eof] == [Keyword("BEHAVIOR")] + ([Identifier(name)] + head);
    HeaderParses(name, head);
    SectionStart(Entry(name, NoContract, ""), body + final);
    ParseIsParse();
    ContractRequiresLast(clauses, final);
    FinalParses(Entry(name, NoContract.(behaviors := clauses[|clauses| - 1]), ""), hash);
  }

  /** From the text to the contract: with any number of REQUIRES lines, pinned and unpinned references
      mixed, exactly the references of the last line are required, in order. */
  lemma {:induction false} RequiresReadBack(name: string, clauses: seq<seq<BehaviorRef>>, hash: string)
    requires IsName(name) && IsPin(hash) && clauses != [] && ClausesOk(clauses) && NoneEmpty(clauses)
    ensures ReadBlock(ClausesBlock(name, clauses, hash))
         == Some(Entry(name, NoContract.(behaviors := clauses[|clauses| - 1]), hash))
  {
    NextIsNext();
    ClausesBlockLexes(Next, name, clauses, hash);
    ClausesBlockStart(name, clauses, hash);
    ClausesBlockParses(name, clauses, hash);
  }

  lemma {:induction false} ClausesBlockStart(name: string, clauses: seq<seq<BehaviorRef>>, hash: string)
    ensures Start(ClausesBlock(name, clauses, hash)) == Bol(ClausesBlock(name, clauses, hash))
  {
    assert ClausesBlock(name, clauses, hash)[0] == 'B';
  }
}
