/** Registry text, compiler/src/main.rs:558-604, and reading it back. */
module Registry {
  import opened Common
  import opened Contracts
  import opened Lexer
  import opened Parser
  import opened LexedText

  // ----- printing ------------------------------------------------------------------------

  function TypeWord(t: Type): string {
    match t
    case Bytes => "bytes"
    case Int => "int"
    case Float => "float"
    case String => "string"
  }

  function GuaranteeWord(g: Guarantee): string {
    match g
    case Pure => "pure"
    case NoAlloc => "no_alloc"
    case WritesOutput => "writes_output"
  }

  function ParameterLine(word: string, p: Parameter): string {
    "  " + (word + (" " + (p.name + (" " + (TypeWord(p.typ) + (" " + (ShowNat(p.size) + "\n")))))))
  }

  function ParameterLines(word: string, ps: seq<Parameter>): string {
    if ps == [] then "" else ParameterLine(word, ps[0]) + ParameterLines(word, ps[1..])
  }

  function ReferenceText(r: BehaviorRef): string { " " + (r.name + ("@" + r.hash)) }

  function ReferencesText(rs: seq<BehaviorRef>): string {
    if rs == [] then "" else ReferenceText(rs[0]) + ReferencesText(rs[1..])
  }

  function RequiresLine(rs: seq<BehaviorRef>): string {
    if rs == [] then "" else "  " + ("REQUIRES" + (ReferencesText(rs) + "\n"))
  }

  function GuaranteesText(gs: seq<Guarantee>): string {
    if gs == [] then "" else " " + (GuaranteeWord(gs[0]) + GuaranteesText(gs[1..]))
  }

  function GuaranteesLine(gs: seq<Guarantee>): string {
    if gs == [] then "" else "  " + ("GUARANTEES" + (GuaranteesText(gs) + "\n"))
  }

  function ContractLines(c: Contract): string {
    ParameterLines("INPUT", c.inputs) + (ParameterLines("OUTPUT", c.outputs)
      + (RequiresLine(c.behaviors) + GuaranteesLine(c.guarantees)))
  }

  /** An entry without the blank line that separates it from the next. */
  function Block(e: Entry): string {
    "BEHAVIOR" + (" " + (e.name + ("\n" + ("CONTRACT" + ("\n" + (ContractLines(e.contract)
      + ("HASH" + (" " + (e.hash + ("\n" + "END"))))))))))
  }

  function RegistryText(entries: seq<Entry>): string {
    if entries == [] then "" else Block(entries[0]) + ("\n\n" + RegistryText(entries[1..]))
  }

  // ----- what can be printed and read -------------------------------------------------------

  /** As compute_contract_hash writes it. */
  predicate IsPin(s: string) { |s| == 8 && AllLowerHex(s) }

  predicate ParameterOk(p: Parameter) { IsName(p.name) }

  predicate ReferenceOk(r: BehaviorRef) { IsName(r.name) && IsPin(r.hash) }

  predicate ContractOk(c: Contract) {
    && (forall i :: 0 <= i < |c.inputs| ==> ParameterOk(c.inputs[i]))
    && (forall i :: 0 <= i < |c.outputs| ==> ParameterOk(c.outputs[i]))
    && (forall i :: 0 <= i < |c.behaviors| ==> ReferenceOk(c.behaviors[i]))
  }

  predicate EntryOk(e: Entry) { IsName(e.name) && ContractOk(e.contract) && IsPin(e.hash) }

  /** A size that does not fit a signed 64-bit literal. */
  predicate Huge(ps: seq<Parameter>) { exists i :: 0 <= i < |ps| && ps[i].size >= TwoTo63 }

  predicate Oversized(c: Contract) { Huge(c.inputs) || Huge(c.outputs) }

  /** A pin of digits only, directly followed by a name that reads as hexadecimal. */
  predicate Runs(r: BehaviorRef, next: BehaviorRef) { AllDigits(r.hash) && AllHex(next.name) }

  predicate Ambiguous(rs: seq<BehaviorRef>) {
    |rs| > 1 && (Runs(rs[0], rs[1]) || Ambiguous(rs[1..]))
  }

  // ----- its tokens ------------------------------------------------------------------------------

  function ParameterTokens(word: string, p: Parameter): seq<Token> {
    [Indent(2)] + ([Keyword(word)]
        + ([Identifier(p.name)] + ([Keyword(TypeWord(p.typ))] + ([Integer(p.size)] + [Newline]))))
  }

  function ParametersTokens(word: string, ps: seq<Parameter>): seq<Token> {
    if ps == [] then [] else ParameterTokens(word, ps[0]) + ParametersTokens(word, ps[1..])
  }

  /** Leading digits become an integer, the rest an identifier. */
  function PinTokens(pin: string): seq<Token> {
    var d := Span(pin, IsDigit);
    if d == 0 then [Identifier(pin)]
    else if d == |pin| then [Integer(Value(pin, 10))]
    else [Integer(Value(pin[..d], 10))] + [Identifier(pin[d..])]
  }

  function ReferenceTokens(r: BehaviorRef): seq<Token> { [Identifier(r.name)] + ([At] + PinTokens(r.hash)) }

  function ReferencesTokens(rs: seq<BehaviorRef>): seq<Token> {
    if rs == [] then [] else ReferenceTokens(rs[0]) + ReferencesTokens(rs[1..])
  }

  function RequiresTokens(rs: seq<BehaviorRef>): seq<Token> {
    if rs == [] then [] else [Indent(2)] + ([Keyword("REQUIRES")] + (ReferencesTokens(rs) + [Newline]))
  }

  function GuaranteeTokens(gs: seq<Guarantee>): seq<Token> {
    if gs == [] then [] else [Keyword(GuaranteeWord(gs[0]))] + GuaranteeTokens(gs[1..])
  }

  function GuaranteesTokens(gs: seq<Guarantee>): seq<Token> {
    if gs == [] then [] else [Indent(2)] + ([Keyword("GUARANTEES")] + (GuaranteeTokens(gs) + [Newline]))
  }

  function ContractTokens(c: Contract): seq<Token> {
    ParametersTokens("INPUT", c.inputs) + (ParametersTokens("OUTPUT", c.outputs)
      + (RequiresTokens(c.behaviors) + GuaranteesTokens(c.guarantees)))
  }

  function EntryTokens(e: Entry): seq<Token> {
    [Keyword("BEHAVIOR")] + ([Identifier(e.name)] + ([Newline] + ([Keyword("CONTRACT")] + ([Newline]
      + (ContractTokens(e.contract) + ([Keyword("HASH")] + (PinTokens(e.hash) + ([Newline] + [Keyword("END")]))))))))
  }

  // ----- lexing the lines ------------------------------------------------------------------------

  /** An indented line: its keyword and what the rest of it is. */
  lemma {:induction false} ClauseLexes(next: Stepper, word: string, s: string, ts: seq<Token>, end: State)
    requires IsNext(next) && IsClauseWord(word) && EndsWord(s) && Emits(next, Mid(s), ts, end)
    ensures Emits(next, Bol("  " + (word + s)), [Indent(2)] + ([Keyword(word)] + ts), end)
  {
    ClauseSteps(next, word, s);
    EmitsNext(next, Mid(word + s), Keyword(word), Mid(s), ts, end);
    EmitsNext(next, Bol("  " + (word + s)), Indent(2), Mid(word + s), [Keyword(word)] + ts, end);
  }

  /** The line of a parameter up to its type, whatever follows. */
  lemma {:induction false} ParameterStarts(next: Stepper, word: string, name: string, typ: Type, s: string,
                                           ts: seq<Token>, end: State)
    requires IsNext(next) && IsName(name) && (word == "INPUT" || word == "OUTPUT") && EndsWord(s)
             && Emits(next, Mid(s), ts, end)
    ensures Emits(next, Bol("  " + (word + (" " + (name + (" " + (TypeWord(typ) + s)))))),
                  [Indent(2)] + ([Keyword(word)] + ([Identifier(name)] + ([Keyword(TypeWord(typ))] + ts))), end)
  {
    var s3 := " " + (TypeWord(typ) + s);
    LowerStep(next, TypeWord(typ), s);
    EmitsNext(next, Mid(s3), Keyword(TypeWord(typ)), Mid(s), ts, end);
    NameStep(next, name, s3);
    EmitsNext(next, Mid(" " + (name + s3)), Identifier(name), Mid(s3), [Keyword(TypeWord(typ))] + ts, end);
    ClauseLexes(next, word, " " + (name + s3), [Identifier(name)] + ([Keyword(TypeWord(typ))] + ts), end);
  }

  lemma {:induction false} ParameterLexes(next: Stepper, word: string, p: Parameter, t: string)
    requires IsNext(next) && ParameterOk(p) && p.size < TwoTo63 && (word == "INPUT" || word == "OUTPUT")
    ensures Emits(next, Bol(ParameterLine(word, p) + t), ParameterTokens(word, p), Bol(t))
  {
    var s5 := "\n" + t;
    var s4 := " " + (ShowNat(p.size) + s5);
    LineStep(next, t);
    EmitsOne(next, Mid(s5), Newline, Bol(t));
    SizeStep(next, p.size, s5);
    EmitsNext(next, Mid(s4), Integer(p.size), Mid(s5), [Newline], Bol(t));
    ParameterStarts(next, word, p.name, p.typ, s4, [Integer(p.size)] + [Newline], Bol(t));
    ParameterLineThen(word, p, t);
  }

  /** The lexer stops at a huge size. */
  lemma {:induction false} ParameterFails(next: Stepper, word: string, p: Parameter, t: string)
    requires IsNext(next) && ParameterOk(p) && p.size >= TwoTo63 && (word == "INPUT" || word == "OUTPUT")
    ensures Fails(next, Bol(ParameterLine(word, p) + t))
  {
    var s5 := "\n" + t;
    var s4 := " " + (ShowNat(p.size) + s5);
    SizeStep(next, p.size, s5);
    assert Emits(next, Mid(s4), [], Mid(s4));
    ParameterStarts(next, word, p.name, p.typ, s4, [], Mid(s4));
    ParameterLineThen(word, p, t);
  }

  lemma {:induction false} ParameterLineThen(word: string, p: Parameter, t: string)
    ensures ParameterLine(word, p) + t
         == "  " + (word + (" " + (p.name + (" " + (TypeWord(p.typ) + (" " + (ShowNat(p.size) + ("\n" + t))))))))
  {
    Assoc8("  ", word, " ", p.name, " ", TypeWord(p.typ), " ", ShowNat(p.size), "\n", t);
  }

  lemma {:induction false} Assoc8(a: string, b: string, c: string, d: string, e: string, f: string, g: string,
                                  h: string, i: string, t: string)
    ensures a + (b + (c + (d + (e + (f + (g + (h + i))))))) + t == a + (b + (c + (d + (e + (f + (g + (h + (i + t))))))))
  {
    var x := e + (f + (g + (h + i)));
    assert x + t == e + (f + (g + (h + (i + t))));
    assert a + (b + (c + (d + x))) + t == a + (b + (c + (d + (x + t))));
  }

  /** Pieces of text one after the other. */
  lemma {:induction false} EmitsPieces(next: Stepper, x: string, ts: seq<Token>, y: string, us: seq<Token>, t: string)
    requires Emits(next, Bol(x + (y + t)), ts, Bol(y + t)) && Emits(next, Bol(y + t), us, Bol(t))
    ensures Emits(next, Bol((x + y) + t), ts + us, Bol(t))
  {
    EmitsConcat(next, Bol(x + (y + t)), ts, Bol(y + t), us, Bol(t));
    assert (x + y) + t == x + (y + t);
  }

  lemma {:induction false} ParametersLex(next: Stepper, word: string, ps: seq<Parameter>, t: string)
    requires IsNext(next) && (forall i :: 0 <= i < |ps| ==> ParameterOk(ps[i])) && (word == "INPUT" || word == "OUTPUT")
    requires !Huge(ps)
    ensures Emits(next, Bol(ParameterLines(word, ps) + t), ParametersTokens(word, ps), Bol(t))
    decreases |ps|
  {
    if ps == [] {
      assert ParameterLines(word, ps) + t == t;
    } else {
      var more := ParameterLines(word, ps[1..]);
      assert ps[0].size < TwoTo63 && forall i :: 0 <= i < |ps[1..]| ==> ps[1..][i] == ps[i + 1];
      ParametersLex(next, word, ps[1..], t);
      ParameterLexes(next, word, ps[0], more + t);
      EmitsPieces(next, ParameterLine(word, ps[0]), ParameterTokens(word, ps[0]), more,
          ParametersTokens(word, ps[1..]), t);
    }
  }

  lemma {:induction false} ParametersFail(next: Stepper, word: string, ps: seq<Parameter>, t: string)
    requires IsNext(next) && (forall i :: 0 <= i < |ps| ==> ParameterOk(ps[i])) && (word == "INPUT" || word == "OUTPUT")
    requires Huge(ps)
    ensures Fails(next, Bol(ParameterLines(word, ps) + t))
    decreases |ps|
  {
    var more := ParameterLines(word, ps[1..]);
    assert ParameterLine(word, ps[0]) + more + t == ParameterLine(word, ps[0]) + (more + t);
    if ps[0].size >= TwoTo63 {
      ParameterFails(next, word, ps[0], more + t);
    } else {
      var i :| 0 <= i < |ps| && ps[i].size >= TwoTo63;
      assert ps[1..][i - 1] == ps[i];
      ParametersFail(next, word, ps[1..], t);
      ParameterLexes(next, word, ps[0], more + t);
      FailsAfter(next, Bol(ParameterLine(word, ps[0]) + (more + t)), ParameterTokens(word, ps[0]), Bol(more + t));
    }
  }

  /** What may follow a pin: a blank or the end of the line. */
  predicate EndsPin(t: string) { t != [] && (t[0] == ' ' || t[0] == '\n') }

  lemma {:induction false} EmitsTwo(next: Stepper, a: State, t: Token, b: State, u: Token, c: State)
    requires next(a) == (Ok(t), b) && next(b) == (Ok(u), c) && !t.Eof? && !u.Eof?
    ensures Emits(next, a, [t] + [u], c)
  {
    EmitsOne(next, b, u, c);
    EmitsNext(next, a, t, b, [u], c);
  }

  lemma {:induction false} PinLexes(next: Stepper, pin: string, t: string)
    requires IsNext(next) && IsPin(pin) && EndsPin(t)
    ensures Emits(next, Mid(pin + t), PinTokens(pin), Mid(t))
  {
    var d := Span(pin, IsDigit);
    if d == 0 {
      HexStep(next, pin, t);
      EmitsOne(next, Mid(pin + t), Identifier(pin), Mid(t));
    } else if d == |pin| {
      DigitsStep(next, pin, t);
      EmitsOne(next, Mid(pin + t), Integer(Value(pin, 10)), Mid(t));
    } else {
      var a, b := pin[..d], pin[d..];
      assert (b + t)[0] == pin[d];
      DigitsStep(next, a, b + t);
      HexStep(next, b, t);
      assert a + (b + t) == pin + t;
      EmitsTwo(next, Mid(pin + t), Integer(Value(a, 10)), Mid(b + t), Identifier(b), Mid(t));
    }
  }

  lemma {:induction false} ReferenceLexes(next: Stepper, r: BehaviorRef, t: string)
    requires IsNext(next) && ReferenceOk(r) && EndsPin(t)
    ensures Emits(next, Mid(ReferenceText(r) + t), ReferenceTokens(r), Mid(t))
  {
    PinLexes(next, r.hash, t);
    AtStep(next, r.hash + t);
    EmitsNext(next, Mid("@" + (r.hash + t)), At, Mid(r.hash + t), PinTokens(r.hash), Mid(t));
    NameStep(next, r.name, "@" + (r.hash + t));
    EmitsNext(next, Mid(" " + (r.name + ("@" + (r.hash + t)))), Identifier(r.name), Mid("@" + (r.hash + t)),
              [At] + PinTokens(r.hash), Mid(t));
    assert ReferenceText(r) + t == " " + (r.name + ("@" + (r.hash + t)));
  }

  lemma {:induction false} ReferencesLex(next: Stepper, rs: seq<BehaviorRef>, t: string)
    requires IsNext(next) && (forall i :: 0 <= i < |rs| ==> ReferenceOk(rs[i])) && EndsPin(t)
    ensures Emits(next, Mid(ReferencesText(rs) + t), ReferencesTokens(rs), Mid(t))
    decreases |rs|
  {
    if rs == [] {
      assert ReferencesText(rs) + t == t;
    } else {
      var more := ReferencesText(rs[1..]) + t;
      ReferencesLex(next, rs[1..], t);
      ReferencesEndPin(rs[1..], t);
      assert ReferenceOk(rs[0]);
      ReferenceLexes(next, rs[0], more);
      ReferencesTextThen(rs, t);
      EmitsConcat(next, Mid(ReferencesText(rs) + t), ReferenceTokens(rs[0]), Mid(more), ReferencesTokens(rs[1..]),
          Mid(t));
    }
  }

  lemma {:induction false} ReferencesEndPin(rs: seq<BehaviorRef>, t: string)
    requires EndsPin(t)
    ensures EndsPin(ReferencesText(rs) + t)
  {
    if rs == [] {
      assert ReferencesText(rs) + t == t;
    }
  }

  lemma {:induction false} ReferencesTextThen(rs: seq<BehaviorRef>, t: string)
    requires rs != []
    ensures ReferencesText(rs) + t == ReferenceText(rs[0]) + (ReferencesText(rs[1..]) + t)
  {
    var r, more := ReferenceText(rs[0]), ReferencesText(rs[1..]);
    assert r + more + t == r + (more + t);
  }

  /** A clause whose words run to the end of the line. */
  lemma {:induction false} ClauseLineLexes(next: Stepper, word: string, s: string, ts: seq<Token>, t: string)
    requires IsNext(next) && IsClauseWord(word)
    requires s != [] && s[0] == ' ' && Emits(next, Mid(s + ("\n" + t)), ts, Mid("\n" + t))
    ensures Emits(next, Bol("  " + (word + (s + "\n")) + t), [Indent(2)] + ([Keyword(word)] + (ts + [Newline])), Bol(t))
  {
    LineStep(next, t);
    EmitsOne(next, Mid("\n" + t), Newline, Bol(t));
    EmitsConcat(next, Mid(s + ("\n" + t)), ts, Mid("\n" + t), [Newline], Bol(t));
    ClauseLexes(next, word, s + ("\n" + t), ts + [Newline], Bol(t));
    assert "  " + (word + (s + "\n")) + t == "  " + (word + (s + ("\n" + t)));
  }

  lemma {:induction false} RequiresLexes(next: Stepper, rs: seq<BehaviorRef>, t: string)
    requires IsNext(next) && forall i :: 0 <= i < |rs| ==> ReferenceOk(rs[i])
    ensures Emits(next, Bol(RequiresLine(rs) + t), RequiresTokens(rs), Bol(t))
  {
    if rs == [] {
      assert RequiresLine(rs) + t == t;
    } else {
      ReferencesLex(next, rs, "\n" + t);
      ClauseLineLexes(next, "REQUIRES", ReferencesText(rs), ReferencesTokens(rs), t);
    }
  }

  lemma {:induction false} GuaranteeStep(next: Stepper, g: Guarantee, t: string)
    requires IsNext(next) && EndsPin(t)
    ensures next(Mid(" " + (GuaranteeWord(g) + t))) == (Ok(Keyword(GuaranteeWord(g))), Mid(t))
  {
    LowerStep(next, GuaranteeWord(g), t);
  }

  lemma {:induction false} GuaranteesEndPin(gs: seq<Guarantee>, t: string)
    requires EndsPin(t)
    ensures EndsPin(GuaranteesText(gs) + t)
  {
    if gs == [] {
      assert GuaranteesText(gs) + t == t;
    }
  }

  lemma {:induction false} GuaranteesTextThen(gs: seq<Guarantee>, t: string)
    requires gs != []
    ensures GuaranteesText(gs) + t == " " + (GuaranteeWord(gs[0]) + (GuaranteesText(gs[1..]) + t))
  {
    var w, more := GuaranteeWord(gs[0]), GuaranteesText(gs[1..]);
    assert " " + (w + more) + t == " " + (w + (more + t));
  }

  lemma {:induction false} GuaranteeWordsLex(next: Stepper, gs: seq<Guarantee>, t: string)
    requires IsNext(next) && EndsPin(t)
    ensures Emits(next, Mid(GuaranteesText(gs) + t), GuaranteeTokens(gs), Mid(t))
    decreases |gs|
  {
    if gs == [] {
      assert GuaranteesText(gs) + t == t;
    } else {
      var more := GuaranteesText(gs[1..]) + t;
      GuaranteeWordsLex(next, gs[1..], t);
      GuaranteesEndPin(gs[1..], t);
      GuaranteeStep(next, gs[0], more);
      GuaranteesTextThen(gs, t);
      EmitsNext(next, Mid(GuaranteesText(gs) + t), Keyword(GuaranteeWord(gs[0])), Mid(more), GuaranteeTokens(gs[1..]),
          Mid(t));
    }
  }

  lemma {:induction false} GuaranteesLex(next: Stepper, gs: seq<Guarantee>, t: string)
    requires IsNext(next)
    ensures Emits(next, Bol(GuaranteesLine(gs) + t), GuaranteesTokens(gs), Bol(t))
  {
    if gs == [] {
      assert GuaranteesLine(gs) + t == t;
    } else {
      GuaranteeWordsLex(next, gs, "\n" + t);
      ClauseLineLexes(next, "GUARANTEES", GuaranteesText(gs), GuaranteeTokens(gs), t);
    }
  }

  // ----- lexing a whole block ----------------------------------------------------------------

  lemma {:induction false} ContractLexes(next: Stepper, c: Contract, t: string)
    requires IsNext(next) && ContractOk(c) && !Oversized(c)
    ensures Emits(next, Bol(ContractLines(c) + t), ContractTokens(c), Bol(t))
  {
    var g := GuaranteesLine(c.guarantees);
    var r := RequiresLine(c.behaviors) + g;
    var o := ParameterLines("OUTPUT", c.outputs) + r;
    var rt := RequiresTokens(c.behaviors) + GuaranteesTokens(c.guarantees);
    GuaranteesLex(next, c.guarantees, t);
    RequiresLexes(next, c.behaviors, g + t);
    EmitsPieces(next, RequiresLine(c.behaviors), RequiresTokens(c.behaviors), g, GuaranteesTokens(c.guarantees), t);
    ParametersLex(next, "OUTPUT", c.outputs, r + t);
    EmitsPieces(next, ParameterLines("OUTPUT", c.outputs), ParametersTokens("OUTPUT", c.outputs), r, rt, t);
    ParametersLex(next, "INPUT", c.inputs, o + t);
    EmitsPieces(next, ParameterLines("INPUT", c.inputs), ParametersTokens("INPUT", c.inputs), o,
                ParametersTokens("OUTPUT", c.outputs) + rt, t);
  }

  lemma {:induction false} ThreePieces(a: string, b: string, c: string, t: string)
    ensures a + (b + c) + t == a + (b + (c + t))
  {
  }

  lemma {:induction false} ContractFails(next: Stepper, c: Contract, t: string)
    requires IsNext(next) && ContractOk(c) && Oversized(c)
    ensures Fails(next, Bol(ContractLines(c) + t))
  {
    var r := RequiresLine(c.behaviors) + GuaranteesLine(c.guarantees);
    var i, o := ParameterLines("INPUT", c.inputs), ParameterLines("OUTPUT", c.outputs);
    ThreePieces(i, o, r, t);
    if Huge(c.inputs) {
      ParametersFail(next, "INPUT", c.inputs, o + (r + t));
    } else {
      ParametersFail(next, "OUTPUT", c.outputs, r + t);
      ParametersLex(next, "INPUT", c.inputs, o + (r + t));
      FailsAfter(next, Bol(i + (o + (r + t))), ParametersTokens("INPUT", c.inputs), Bol(o + (r + t)));
    }
  }

  lemma {:induction false} EmitsBlank(next: Stepper, x: string, ts: seq<Token>, c: State)
    requires IsNext(next) && ts != [] && Emits(next, Mid(x), ts, c)
    ensures Emits(next, Mid(" " + x), ts, c)
  {
    BlankStep(next, x);
  }

  function FinalText(hash: string): string { "HASH" + (" " + (hash + ("\n" + "END"))) }

  function FinalTokens(hash: string): seq<Token> {
    [Keyword("HASH")] + (PinTokens(hash) + ([Newline] + [Keyword("END")]))
  }

  lemma {:induction false} FinalLexes(next: Stepper, hash: string)
    requires IsNext(next) && IsPin(hash)
    ensures Emits(next, Bol(FinalText(hash)), FinalTokens(hash), Mid(""))
  {
    var s2 := "\n" + "END";
    SectionStep(next, "END", "");
    assert "END" + "" == "END";
    LineStep(next, "END");
    EmitsTwo(next, Mid(s2), Newline, Bol("END"), Keyword("END"), Mid(""));
    PinLexes(next, hash, s2);
    EmitsConcat(next, Mid(hash + s2), PinTokens(hash), Mid(s2), [Newline] + [Keyword("END")], Mid(""));
    var ts := PinTokens(hash) + ([Newline] + [Keyword("END")]);
    EmitsBlank(next, hash + s2, ts, Mid(""));
    SectionStep(next, "HASH", " " + (hash + s2));
    EmitsNext(next, Bol(FinalText(hash)), Keyword("HASH"), Mid(" " + (hash + s2)), ts, Mid(""));
  }

  lemma {:induction false} ContractSectionLexes(next: Stepper, e: Entry, s5: string, t5: seq<Token>)
    requires IsNext(next) && EntryOk(e) && !Oversized(e.contract)
    requires s5 == ContractLines(e.contract) + FinalText(e.hash)
    requires t5 == ContractTokens(e.contract) + FinalTokens(e.hash)
    ensures Emits(next, Bol("CONTRACT" + ("\n" + s5)), [Keyword("CONTRACT")] + ([Newline] + t5), Mid(""))
  {
    FinalLexes(next, e.hash);
    ContractLexes(next, e.contract, FinalText(e.hash));
    EmitsConcat(next, Bol(s5), ContractTokens(e.contract), Bol(FinalText(e.hash)), FinalTokens(e.hash), Mid(""));
    SectionHeadLexes(next, s5, t5, Mid(""));
  }

  lemma {:induction false} SectionHeadLexes(next: Stepper, s: string, ts: seq<Token>, end: State)
    requires IsNext(next) && Emits(next, Bol(s), ts, end)
    ensures Emits(next, Bol("CONTRACT" + ("\n" + s)), [Keyword("CONTRACT")] + ([Newline] + ts), end)
  {
    LineStep(next, s);
    EmitsNext(next, Mid("\n" + s), Newline, Bol(s), ts, end);
    SectionStep(next, "CONTRACT", "\n" + s);
    EmitsNext(next, Bol("CONTRACT" + ("\n" + s)), Keyword("CONTRACT"), Mid("\n" + s), [Newline] + ts, end);
  }

  lemma {:induction false} HeaderLexes(next: Stepper, name: string, s3: string, t3: seq<Token>, end: State)
    requires IsNext(next) && IsName(name) && Emits(next, Bol(s3), t3, end)
    ensures Emits(next, Bol("BEHAVIOR" + (" " + (name + ("\n" + s3)))),
                  [Keyword("BEHAVIOR")] + ([Identifier(name)] + ([Newline] + t3)), end)
  {
    var s1 := " " + (name + ("\n" + s3));
    LineStep(next, s3);
    EmitsNext(next, Mid("\n" + s3), Newline, Bol(s3), t3, end);
    NameStep(next, name, "\n" + s3);
    EmitsNext(next, Mid(s1), Identifier(name), Mid("\n" + s3), [Newline] + t3, end);
    SectionStep(next, "BEHAVIOR", s1);
    EmitsNext(next, Bol("BEHAVIOR" + s1), Keyword("BEHAVIOR"), Mid(s1), [Identifier(name)] + ([Newline] + t3), end);
  }

  lemma {:induction false} BlockLexes(next: Stepper, e: Entry)
    requires IsNext(next) && EntryOk(e) && !Oversized(e.contract)
    ensures Emits(next, Bol(Block(e)), EntryTokens(e), Mid(""))
  {
    var s5 := ContractLines(e.contract) + FinalText(e.hash);
    var t5 := ContractTokens(e.contract) + FinalTokens(e.hash);
    ContractSectionLexes(next, e, s5, t5);
    HeaderLexes(next, e.name, "CONTRACT" + ("\n" + s5), [Keyword("CONTRACT")] + ([Newline] + t5), Mid(""));
  }

  lemma {:induction false} NextIsNext()
    ensures IsNext(Next)
  {
  }

  lemma {:induction false} EndOfText()
    ensures LexFrom(Mid("")) == Tokens([Eof])
  {
    assert ""[0..] == "";
  }

  /** The tokens of a printed block. */
  lemma {:induction false} BlockTokens(e: Entry)
    requires EntryOk(e) && !Oversized(e.contract)
    ensures Lex(Block(e)) == Tokens(EntryTokens(e) + [Eof])
  {
    NextIsNext();
    BlockTokensBy(Next, e);
    StartOfBlock(e);
  }

  lemma {:induction false} BlockTokensBy(next: Stepper, e: Entry)
    requires IsNext(next) && EntryOk(e) && !Oversized(e.contract)
    ensures LexFrom(Bol(Block(e))) == Tokens(EntryTokens(e) + [Eof])
  {
    BlockLexes(next, e);
    EmitsLex(next, Bol(Block(e)), EntryTokens(e), Mid(""));
    EndOfText();
  }

  lemma {:induction false} BlockFails(next: Stepper, e: Entry)
    requires IsNext(next) && EntryOk(e) && Oversized(e.contract)
    ensures Fails(next, Bol(Block(e)))
  {
    var s5 := ContractLines(e.contract) + FinalText(e.hash);
    ContractFails(next, e.contract, FinalText(e.hash));
    assert Emits(next, Bol(s5), [], Bol(s5));
    SectionHeadLexes(next, s5, [], Bol(s5));
    HeaderLexes(next, e.name, "CONTRACT" + ("\n" + s5), [Keyword("CONTRACT")] + ([Newline] + []), Bol(s5));
    FailsAfter(next, Bol(Block(e)),
        [Keyword("BEHAVIOR")] + ([Identifier(e.name)] + ([Newline] + ([Keyword("CONTRACT")] + ([Newline] + [])))),
            Bol(s5));
  }

  /** A printed block with a huge size is no text the lexer accepts. */
  lemma {:induction false} BlockIsNoText(e: Entry)
    requires EntryOk(e) && Oversized(e.contract)
    ensures Lex(Block(e)) == LexError
  {
    NextIsNext();
    BlockFails(Next, e);
    FailsLex(Next, Bol(Block(e)));
    StartOfBlock(e);
  }

  lemma {:induction false} StartOfBlock(e: Entry)
    ensures Start(Block(e)) == Bol(Block(e))
  {
    assert Block(e)[0] == 'B';
  }

  // ----- parsing parameters and guarantees -------------------------------------------------------

  type ContractParser = (seq<Token>, Contract) -> Parsed<Contract>

  /** parse is the contract parser; proofs about whole clauses need no more of it. */
  ghost predicate IsParse(parse: ContractParser) {
    forall ts, c {:trigger ParseContract(ts, c)} :: parse(ts, c) == ParseContract(ts, c)
  }

  lemma {:induction false} BreakStep(parse: ContractParser, t: Token, ts: seq<Token>, c: Contract)
    requires IsParse(parse) && (t.Newline? || t.Indent?)
    ensures parse([t] + ts, c) == parse(ts, c)
  {
    assert ([t] + ts)[1..] == ts;
    assert parse([t] + ts, c) == ParseContract([t] + ts, c) && parse(ts, c) == ParseContract(ts, c);
  }

  /** Line breaks do not matter to the contract parser. */
  lemma {:induction false} SkipStep(parse: ContractParser, ts: seq<Token>, c: Contract)
    requires IsParse(parse)
    ensures parse(SkipNewlines(ts), c) == parse(ts, c)
  {
    SkipTwice(ts);
    assert parse(SkipNewlines(ts), c) == ParseContract(SkipNewlines(ts), c) && parse(ts, c) == ParseContract(ts, c);
  }

  lemma {:induction false} ClauseStep(parse: ContractParser, word: string, ts: seq<Token>, c: Contract, d: Contract,
                                      rest: seq<Token>)
    requires IsParse(parse) && IsClauseWord(word) && ParseClause(word, ts, c) == Success(d, rest)
    ensures parse([Indent(2)] + ([Keyword(word)] + ts), c) == parse(rest, d)
  {
    var us := [Keyword(word)] + ts;
    BreakStep(parse, Indent(2), us, c);
    assert us[1..] == ts;
    assert parse(us, c) == ParseContract(us, c) && parse(rest, d) == ParseContract(rest, d);
  }

  function WithParameters(c: Contract, word: string, ps: seq<Parameter>): Contract {
    if word == "INPUT" then c.(inputs := c.inputs + ps) else c.(outputs := c.outputs + ps)
  }

  lemma {:induction false} ParameterParses(p: Parameter, ts: seq<Token>)
    ensures ParseParameter([Identifier(p.name)] + ([Keyword(TypeWord(p.typ))] + ([Integer(p.size)] + ts)))
            == Success(p, ts)
  {
    var u3 := [Integer(p.size)] + ts;
    var u2 := [Keyword(TypeWord(p.typ))] + u3;
    var u1 := [Identifier(p.name)] + u2;
    assert u1[1..] == u2 && u1[2..] == u3 && u3[1..] == ts;
  }

  lemma {:induction false} ParameterClause(word: string, ts: seq<Token>, c: Contract, p: Parameter, rest: seq<Token>)
    requires (word == "INPUT" || word == "OUTPUT") && ParseParameter(ts) == Success(p, rest)
    ensures ParseClause(word, ts, c) == Success(WithParameters(c, word, [p]), rest)
  {
  }

  lemma {:induction false} ParameterTokensThen(word: string, p: Parameter, ts: seq<Token>)
    ensures ParameterTokens(word, p) + ts == [Indent(2)] + ([Keyword(word)]
              + ([Identifier(p.name)] + ([Keyword(TypeWord(p.typ))] + ([Integer(p.size)] + ([Newline] + ts)))))
  {
  }

  lemma {:induction false} ParameterStep(parse: ContractParser, word: string, p: Parameter, ts: seq<Token>, c: Contract)
    requires IsParse(parse) && (word == "INPUT" || word == "OUTPUT")
    ensures parse(ParameterTokens(word, p) + ts, c) == parse(ts, WithParameters(c, word, [p]))
  {
    var u := [Identifier(p.name)] + ([Keyword(TypeWord(p.typ))] + ([Integer(p.size)] + ([Newline] + ts)));
    ParameterParses(p, [Newline] + ts);
    ParameterClause(word, u, c, p, [Newline] + ts);
    ClauseStep(parse, word, u, c, WithParameters(c, word, [p]), [Newline] + ts);
    BreakStep(parse, Newline, ts, WithParameters(c, word, [p]));
    ParameterTokensThen(word, p, ts);
  }

  lemma {:induction false} ParametersStep(parse: ContractParser, word: string, ps: seq<Parameter>, ts: seq<Token>,
                                          c: Contract)
    requires IsParse(parse) && (word == "INPUT" || word == "OUTPUT") && forall i :: 0 <= i < |ps| ==> ParameterOk(ps[i])
    ensures parse(ParametersTokens(word, ps) + ts, c) == parse(ts, WithParameters(c, word, ps))
    decreases |ps|
  {
    if ps == [] {
      assert ParametersTokens(word, ps) + ts == ts;
      assert WithParameters(c, word, ps) == c;
    } else {
      var d := WithParameters(c, word, [ps[0]]);
      var us := ParametersTokens(word, ps[1..]);
      ParameterStep(parse, word, ps[0], us + ts, c);
      assert ParameterTokens(word, ps[0]) + us + ts == ParameterTokens(word, ps[0]) + (us + ts);
      ParametersStep(parse, word, ps[1..], ts, d);
      MoreParameters(c, word, ps);
    }
  }

  lemma {:induction false} MoreParameters(c: Contract, word: string, ps: seq<Parameter>)
    requires ps != []
    ensures WithParameters(WithParameters(c, word, [ps[0]]), word, ps[1..]) == WithParameters(c, word, ps)
  {
    assert c.inputs + [ps[0]] + ps[1..] == c.inputs + ps;
    assert c.outputs + [ps[0]] + ps[1..] == c.outputs + ps;
  }

  lemma {:induction false} GuaranteeParses(g: Guarantee, us: seq<Token>, acc: seq<Guarantee>)
    ensures ParseGuarantees([Keyword(GuaranteeWord(g))] + us, acc) == ParseGuarantees(us, acc + [g])
  {
    var t := Keyword(GuaranteeWord(g));
    assert ([t] + us)[1..] == us;
    assert GuaranteeOf(t) == Some(g);
  }

  lemma {:induction false} GuaranteeWordsParse(gs: seq<Guarantee>, ts: seq<Token>, acc: seq<Guarantee>)
    requires Peek(ts).Newline?
    ensures ParseGuarantees(GuaranteeTokens(gs) + ts, acc) == Success(acc + gs, ts)
    decreases |gs|
  {
    if gs == [] {
      assert GuaranteeTokens(gs) + ts == ts && acc + gs == acc;
    } else {
      var t, us := Keyword(GuaranteeWord(gs[0])), GuaranteeTokens(gs[1..]);
      assert [t] + us + ts == [t] + (us + ts);
      GuaranteeParses(gs[0], us + ts, acc);
      GuaranteeWordsParse(gs[1..], ts, acc + [gs[0]]);
      assert acc + [gs[0]] + gs[1..] == acc + gs;
    }
  }

  lemma {:induction false} GuaranteesClause(gs: seq<Guarantee>, ts: seq<Token>, c: Contract)
    requires Peek(ts).Newline?
    ensures ParseClause("GUARANTEES", GuaranteeTokens(gs) + ts, c) == Success(c.(guarantees := gs), ts)
  {
    GuaranteeWordsParse(gs, ts, []);
    assert [] + gs == gs;
  }

  lemma {:induction false} ClauseTokensThen(word: string, us: seq<Token>, ts: seq<Token>)
    ensures [Indent(2)] + ([Keyword(word)] + (us + [Newline])) + ts
            == [Indent(2)] + ([Keyword(word)] + (us + ([Newline] + ts)))
  {
  }

  lemma {:induction false} GuaranteesStep(parse: ContractParser, gs: seq<Guarantee>, ts: seq<Token>, c: Contract)
    requires IsParse(parse) && c.guarantees == []
    ensures parse(GuaranteesTokens(gs) + ts, c) == parse(ts, c.(guarantees := gs))
  {
    if gs == [] {
      assert GuaranteesTokens(gs) + ts == ts;
    } else {
      GuaranteesClause(gs, [Newline] + ts, c);
      ClauseStep(parse, "GUARANTEES", GuaranteeTokens(gs) + ([Newline] + ts), c, c.(guarantees := gs), [Newline] + ts);
      BreakStep(parse, Newline, ts, c.(guarantees := gs));
      ClauseTokensThen("GUARANTEES", GuaranteeTokens(gs), ts);
    }
  }
}
