/** Writing contracts.registry, compiler/src/main.rs:558-604, and loading it again,
    compiler/src/main.rs:678-715. */
module RegistryFile {
  import opened Common
  import opened Contracts
  import opened Parser
  import opened LexedText
  import opened Registry
  import opened RoundTrip

  // ----- writing ------------------------------------------------------------------------

  lemma {:induction false} Join(a: string, b: string, c: string)
    ensures a + (b + c) == a + b + c
  {
  }

  method PrintParameters(text: string, word: string, ps: seq<Parameter>) returns (r: string)
    ensures r == text + ParameterLines(word, ps)
  {
    r := text;
    for i := 0 to |ps|
      invariant r + ParameterLines(word, ps[i..]) == text + ParameterLines(word, ps)
    {
      assert ps[i..][0] == ps[i] && ps[i..][1..] == ps[i + 1..];
      var line := "  " + (word + (" "
          + (ps[i].name + (" " + (TypeWord(ps[i].typ) + (" " + (ShowNat(ps[i].size) + "\n")))))));
      Join(r, line, ParameterLines(word, ps[i + 1..]));
      r := r + line;
    }
  }

  method PrintReferences(text: string, rs: seq<BehaviorRef>) returns (r: string)
    ensures r == text + ReferencesText(rs)
  {
    r := text;
    for i := 0 to |rs|
      invariant r + ReferencesText(rs[i..]) == text + ReferencesText(rs)
    {
      assert rs[i..][0] == rs[i] && rs[i..][1..] == rs[i + 1..];
      var word := " " + (rs[i].name + ("@" + rs[i].hash));
      Join(r, word, ReferencesText(rs[i + 1..]));
      r := r + word;
    }
  }

  method PrintGuarantees(text: string, gs: seq<Guarantee>) returns (r: string)
    ensures r == text + GuaranteesText(gs)
  {
    r := text;
    for i := 0 to |gs|
      invariant r + GuaranteesText(gs[i..]) == text + GuaranteesText(gs)
    {
      assert gs[i..][0] == gs[i] && gs[i..][1..] == gs[i + 1..];
      var word := " " + GuaranteeWord(gs[i]);
      GuaranteesTextThen(gs[i..], "");
      assert GuaranteesText(gs[i..]) == word + GuaranteesText(gs[i + 1..]);
      Join(r, word, GuaranteesText(gs[i + 1..]));
      r := r + word;
    }
  }

  method PrintRequires(text: string, rs: seq<BehaviorRef>) returns (r: string)
    ensures r == text + RequiresLine(rs)
  {
    r := text;
    if rs != [] {
      r := r + "  REQUIRES";
      r := PrintReferences(r, rs);
      r := r + "\n";
      assert "  REQUIRES" == "  " + "REQUIRES";
      Clause("REQUIRES", ReferencesText(rs), text);
    }
  }

  method PrintGuaranteesLine(text: string, gs: seq<Guarantee>) returns (r: string)
    ensures r == text + GuaranteesLine(gs)
  {
    r := text;
    if gs != [] {
      r := r + "  GUARANTEES";
      r := PrintGuarantees(r, gs);
      r := r + "\n";
      assert "  GUARANTEES" == "  " + "GUARANTEES";
      Clause("GUARANTEES", GuaranteesText(gs), text);
    }
  }

  method PrintContract(text: string, c: Contract) returns (r: string)
    ensures r == text + ContractLines(c)
  {
    r := PrintParameters(text, "INPUT", c.inputs);
    r := PrintParameters(r, "OUTPUT", c.outputs);
    r := PrintRequires(r, c.behaviors);
    r := PrintGuaranteesLine(r, c.guarantees);
    Lines(text, ParameterLines("INPUT", c.inputs), ParameterLines("OUTPUT", c.outputs), RequiresLine(c.behaviors),
          GuaranteesLine(c.guarantees));
  }

  lemma {:induction false} Clause(word: string, s: string, before: string)
    ensures before + ("  " + word) + s + "\n" == before + ("  " + (word + (s + "\n")))
  {
  }

  lemma {:induction false} Lines(text: string, i: string, o: string, r: string, g: string)
    ensures text + i + o + r + g == text + (i + (o + (r + g)))
  {
  }

  method PrintBlock(text: string, e: Entry) returns (r: string)
    ensures r == text + Block(e)
  {
    r := text + ("BEHAVIOR " + e.name + "\n") + "CONTRACT\n";
    r := PrintContract(r, e.contract);
    r := r + ("HASH " + e.hash + "\n") + "END";
    BlockParts(text, e.name, ContractLines(e.contract), e.hash);
  }

  lemma {:induction false} BlockParts(text: string, name: string, c: string, hash: string)
    ensures text + ("BEHAVIOR " + name + "\n") + "CONTRACT\n" + c + ("HASH " + hash + "\n") + "END"
         == text + ("BEHAVIOR" + (" "
             + (name + ("\n" + ("CONTRACT" + ("\n" + (c + ("HASH" + (" " + (hash + ("\n" + "END")))))))))))
  {
    assert "BEHAVIOR " == "BEHAVIOR" + " " && "CONTRACT\n" == "CONTRACT" + "\n" && "HASH " == "HASH" + " ";
    Parts(text, "BEHAVIOR", " ", name, "\n", "CONTRACT", c, "HASH", hash, "END");
  }

  lemma {:induction false} Parts(text: string, b: string, sp: string, name: string, nl: string, k: string, c: string,
                                 h: string, hash: string, end: string)
    ensures text + (b + sp + name + nl) + (k + nl) + c + (h + sp + hash + nl) + end
         == text + (b + (sp + (name + (nl + (k + (nl + (c + (h + (sp + (hash + (nl + end)))))))))))
  {
    var x := h + (sp + (hash + (nl + end)));
    assert (h + sp + hash + nl) + end == x;
    var y := k + (nl + (c + x));
    assert (k + nl) + c + x == y;
    assert (b + sp + name + nl) + y == b + (sp + (name + (nl + y)));
    assert text + (b + sp + name + nl) + (k + nl) + c + (h + sp + hash + nl) + end
        == text + (b + sp + name + nl) + ((k + nl) + c + x);
  }

  /** The text generate_library_index writes. */
  method PrintRegistry(entries: seq<Entry>) returns (r: string)
    ensures r == RegistryText(entries)
  {
    r := "";
    for i := 0 to |entries|
      invariant r + RegistryText(entries[i..]) == RegistryText(entries)
    {
      NextEntry(r, entries, i);
      r := PrintBlock(r, entries[i]);
      r := r + "\n\n";
    }
  }

  lemma {:induction false} NextEntry(before: string, entries: seq<Entry>, i: nat)
    requires i < |entries|
    ensures before + RegistryText(entries[i..]) == before + Block(entries[i]) + "\n\n" + RegistryText(entries[i + 1..])
  {
    assert entries[i..][0] == entries[i] && entries[i..][1..] == entries[i + 1..];
    Append(before, Block(entries[i]), "\n\n", RegistryText(entries[i + 1..]));
  }

  lemma {:induction false} Append(a: string, b: string, c: string, d: string)
    ensures a + (b + (c + d)) == a + b + c + d
  {
  }

  // ----- loading ------------------------------------------------------------------------------

  predicate At(s: string, i: nat, pattern: string) { i + |pattern| <= |s| && s[i..i + |pattern|] == pattern }

  /** str::find, the first occurrence. */
  function Find(s: string, pattern: string): (r: Option<nat>)
    ensures r.Some? ==> At(s, r.value, pattern) && forall i: nat :: i < r.value ==> !At(s, i, pattern)
    ensures r.None? ==> forall i: nat :: !At(s, i, pattern)
  {
    FindFrom(s, pattern, 0)
  }

  function FindFrom(s: string, pattern: string, k: nat): (r: Option<nat>)
    requires forall i: nat :: i < k ==> !At(s, i, pattern)
    ensures r.Some? ==> At(s, r.value, pattern) && forall i: nat :: i < r.value ==> !At(s, i, pattern)
    ensures r.None? ==> forall i: nat :: !At(s, i, pattern)
    decreases |s| - k
  {
    if At(s, k, pattern) then Some(k)
    else if |s| <= k then None
    else FindFrom(s, pattern, k + 1)
  }

  const Opening := "BEHAVIOR "
  const Closing := "\nEND"

  /** Blocks that do not parse are passed over. */
  function Load(s: string, contracts: map<string, Contract>): map<string, Contract>
    decreases |s|
  {
    var b := Find(s, Opening);
    if b.None? then contracts
    else
      var t := s[b.value..];
      var n := Find(t, Closing);
      if n.None? then contracts
      else Load(t[n.value + 4..], Loaded(ReadBlock(t[..n.value + 4]), contracts))
  }

  function Loaded(e: Option<Entry>, contracts: map<string, Contract>): map<string, Contract> {
    if e.Some? then contracts[e.value.name := e.value.contract] else contracts
  }

  /** load_library_contracts on the text of the file. */
  method LoadContracts(content: string) returns (contracts: map<string, Contract>)
    ensures contracts == Load(content, map[])
  {
    contracts := map[];
    var rest := content;
    while Find(rest, Opening).Some?
      invariant Load(rest, contracts) == Load(content, map[])
      decreases |rest|
    {
      var block := rest[Find(rest, Opening).value..];
      var end := Find(block, Closing);
      if end.None? {
        break;
      }
      var e := ReadEntry(block[..end.value + 4]);
      if e.Some? {
        contracts := contracts[e.value.name := e.value.contract];
      }
      rest := block[end.value + 4..];
    }
  }

  // ----- finding the blocks --------------------------------------------------------------------

  /** No line of s, the first included, starts with an E. */
  predicate Calm(s: string) {
    && (s != [] ==> s[0] != 'E')
    && forall i, j :: 0 <= i < |s| && 0 <= j < |s| && j == i + 1 && s[i] == '\n' ==> s[j] != 'E'
  }

  predicate OneLine(s: string) { forall i :: 0 <= i < |s| ==> s[i] != '\n' }

  lemma {:induction false} CalmConcat(a: string, b: string)
    requires Calm(a) && Calm(b)
    ensures Calm(a + b)
  {
    var s := a + b;
    assert a == [] ==> s == b;
    forall i, j | 0 <= i < |s| && 0 <= j < |s| && j == i + 1 && s[i] == '\n' ensures s[j] != 'E' {
      if j < |a| {
        assert s[i] == a[i] && s[j] == a[j];
      } else if j == |a| {
        assert s[j] == b[0];
      } else {
        assert s[i] == b[i - |a|] && s[j] == b[j - |a|];
      }
    }
  }

  lemma {:induction false} Spaced(w: string, t: string)
    requires OneLine(w) && Calm(t)
    ensures Calm(" " + (w + t))
  {
    var a := " " + w;
    assert forall i :: 0 <= i < |a| ==> a[i] != '\n';
    CalmConcat(a, t);
    assert a + t == " " + (w + t);
  }

  lemma {:induction false} NamesAreOneLine(s: string)
    requires IsIdentifier(s)
    ensures OneLine(s)
  {
  }

  lemma {:induction false} ParameterLineCalm(word: string, p: Parameter)
    requires ParameterOk(p) && (word == "INPUT" || word == "OUTPUT")
    ensures Calm(ParameterLine(word, p))
  {
    ShownIsDigits(p.size);
    Spaced(ShowNat(p.size), "\n");
    var s3 := " " + (ShowNat(p.size) + "\n");
    Spaced(TypeWord(p.typ), s3);
    var s2 := " " + (TypeWord(p.typ) + s3);
    NamesAreOneLine(p.name);
    Spaced(p.name, s2);
    CalmConcat(word, " " + (p.name + s2));
    CalmConcat("  ", word + (" " + (p.name + s2)));
  }

  lemma {:induction false} ParameterLinesCalm(word: string, ps: seq<Parameter>)
    requires (forall i :: 0 <= i < |ps| ==> ParameterOk(ps[i])) && (word == "INPUT" || word == "OUTPUT")
    ensures Calm(ParameterLines(word, ps))
    decreases |ps|
  {
    if ps != [] {
      ParameterLineCalm(word, ps[0]);
      ParameterLinesCalm(word, ps[1..]);
      CalmConcat(ParameterLine(word, ps[0]), ParameterLines(word, ps[1..]));
    }
  }

  lemma {:induction false} PinCalm(pin: string)
    requires IsPin(pin)
    ensures OneLine(pin) && Calm("@" + pin)
  {
    forall i | 0 <= i < |pin| ensures pin[i] != '\n' {
      assert IsLowerHex(pin[i]);
    }
  }

  lemma {:induction false} ReferencesCalm(rs: seq<BehaviorRef>)
    requires AllOk(rs)
    ensures Calm(ReferencesText(rs))
    decreases |rs|
  {
    if rs != [] {
      assert ReferenceOk(rs[0]);
      NamesAreOneLine(rs[0].name);
      PinCalm(rs[0].hash);
      Spaced(rs[0].name, "@" + rs[0].hash);
      ReferencesCalm(rs[1..]);
      CalmConcat(ReferenceText(rs[0]), ReferencesText(rs[1..]));
    }
  }

  lemma {:induction false} GuaranteesCalm(gs: seq<Guarantee>)
    ensures Calm(GuaranteesText(gs))
    decreases |gs|
  {
    if gs != [] {
      GuaranteesCalm(gs[1..]);
      Spaced(GuaranteeWord(gs[0]), GuaranteesText(gs[1..]));
    }
  }

  lemma {:induction false} ClauseCalm(word: string, s: string)
    requires (word == "REQUIRES" || word == "GUARANTEES") && Calm(s)
    ensures Calm("  " + (word + (s + "\n")))
  {
    CalmConcat(s, "\n");
    CalmConcat(word, s + "\n");
    CalmConcat("  ", word + (s + "\n"));
  }

  lemma {:induction false} ContractCalm(c: Contract)
    requires ContractOk(c)
    ensures Calm(ContractLines(c))
  {
    ParameterLinesCalm("INPUT", c.inputs);
    ParameterLinesCalm("OUTPUT", c.outputs);
    ReferencesCalm(c.behaviors);
    GuaranteesCalm(c.guarantees);
    ClauseCalm("REQUIRES", ReferencesText(c.behaviors));
    ClauseCalm("GUARANTEES", GuaranteesText(c.guarantees));
    CalmConcat(RequiresLine(c.behaviors), GuaranteesLine(c.guarantees));
    CalmConcat(ParameterLines("OUTPUT", c.outputs), RequiresLine(c.behaviors) + GuaranteesLine(c.guarantees));
    CalmConcat(ParameterLines("INPUT", c.inputs),
               ParameterLines("OUTPUT", c.outputs) + (RequiresLine(c.behaviors) + GuaranteesLine(c.guarantees)));
  }

  /** A block up to its last line. */
  function Body(e: Entry): string {
    "BEHAVIOR" + (" " + (e.name
        + ("\n" + ("CONTRACT" + ("\n" + (ContractLines(e.contract) + ("HASH" + (" " + (e.hash + "")))))))))
  }

  lemma {:induction false} FinalCalm(hash: string)
    requires IsPin(hash)
    ensures Calm("HASH" + (" " + (hash + "")))
  {
    PinCalm(hash);
    Spaced(hash, "");
    CalmConcat("HASH", " " + (hash + ""));
  }

  lemma {:induction false} SectionCalm(t: string)
    requires Calm(t)
    ensures Calm("\n" + ("CONTRACT" + ("\n" + t)))
  {
    CalmConcat("\n", t);
    CalmConcat("CONTRACT", "\n" + t);
    CalmConcat("\n", "CONTRACT" + ("\n" + t));
  }

  lemma {:induction false} HeaderCalm(name: string, t: string)
    requires IsIdentifier(name) && Calm(t)
    ensures Calm("BEHAVIOR" + (" " + (name + t)))
  {
    NamesAreOneLine(name);
    Spaced(name, t);
    CalmConcat("BEHAVIOR", " " + (name + t));
  }

  lemma {:induction false} BodyCalm(e: Entry)
    requires EntryOk(e)
    ensures Calm(Body(e))
  {
    FinalCalm(e.hash);
    ContractCalm(e.contract);
    var final := "HASH" + (" " + (e.hash + ""));
    CalmConcat(ContractLines(e.contract), final);
    SectionCalm(ContractLines(e.contract) + final);
    HeaderCalm(e.name, "\n" + ("CONTRACT" + ("\n" + (ContractLines(e.contract) + final))));
  }

  lemma {:induction false} BlockIsBody(e: Entry)
    ensures Block(e) == Body(e) + Closing
    ensures At(Block(e), 0, Opening)
  {
    BodyThen("BEHAVIOR", " ", e.name, "\n", "CONTRACT", ContractLines(e.contract), "HASH", e.hash, "END");
    assert "\n" + "END" == Closing;
    assert Block(e)[..9] == Opening;
  }

  lemma {:induction false} BodyThen(b: string, sp: string, name: string, nl: string, k: string, c: string, h: string,
                                    hash: string, end: string)
    ensures b + (sp + (name + (nl + (k + (nl + (c + (h + (sp + (hash + "")))))))))  + (nl + end)
         == b + (sp + (name + (nl + (k + (nl + (c + (h + (sp + (hash + (nl + end))))))))))
  {
    var x := h + (sp + (hash + ""));
    assert x + (nl + end) == h + (sp + (hash + (nl + end)));
    var y := k + (nl + (c + x));
    assert y + (nl + end) == k + (nl + (c + (x + (nl + end))));
    assert b + (sp + (name + (nl + y))) + (nl + end) == b + (sp + (name + (nl + (y + (nl + end)))));
  }

  lemma {:induction false} FindIs(s: string, pattern: string, n: nat)
    requires At(s, n, pattern) && forall i: nat :: i < n ==> !At(s, i, pattern)
    ensures Find(s, pattern) == Some(n)
  {
    var r := Find(s, pattern);
    if r.Some? && n < r.value {
      assert false;
    }
  }

  lemma {:induction false} AtClosing(s: string, i: nat)
    ensures At(s, i, Closing) ==> s[i] == '\n' && s[i + 1] == 'E'
  {
    if At(s, i, Closing) {
      assert s[i..i + 4][0] == s[i] && s[i..i + 4][1] == s[i + 1];
    }
  }

  lemma {:induction false} AtOpening(s: string, i: nat)
    ensures At(s, i, Opening) ==> s[i] == 'B'
  {
    if At(s, i, Opening) {
      assert s[i..i + 9][0] == s[i];
    }
  }

  lemma {:induction false} ClosingFound(body: string, t: string)
    requires Calm(body)
    ensures Find(body + Closing + t, Closing) == Some(|body|)
  {
    var s := body + Closing + t;
    assert s[|body|..|body| + 4] == Closing;
    forall i: nat | i < |body| ensures !At(s, i, Closing) {
      AtClosing(s, i);
      assert s[i] == body[i] && s[i + 1] == if i + 1 < |body| then body[i + 1] else '\n';
    }
    FindIs(s, Closing, |body|);
  }

  lemma {:induction false} OpeningFound(p: string, s: string)
    requires (p == "" || p == "\n\n") && At(s, 0, Opening)
    ensures Find(p + s, Opening) == Some(|p|)
  {
    var l := p + s;
    assert l[|p|..|p| + 9] == s[0..9];
    forall i: nat | i < |p| ensures !At(l, i, Opening) {
      AtOpening(l, i);
      assert l[i] == p[i];
    }
    FindIs(l, Opening, |p|);
  }

  // ----- the whole registry --------------------------------------------------------------------------

  function AddEntry(e: Entry, contracts: map<string, Contract>): map<string, Contract> {
    if Lost(e.contract) then contracts else contracts[e.name := Printed(e.contract)]
  }

  /** The contracts that survive: the last of each name among those that can be read. */
  function Kept(entries: seq<Entry>, contracts: map<string, Contract>): map<string, Contract> {
    if entries == [] then contracts
    else
      var e := entries[0];
      Kept(entries[1..], AddEntry(e, contracts))
  }

  /** Where the search finds a block. */
  lemma {:induction false} Located(p: string, e: Entry, t: string, body: string)
    requires (p == "" || p == "\n\n") && EntryOk(e) && body == Body(e)
    ensures Block(e) == body + Closing
    ensures Find(p + (body + Closing + t), Opening) == Some(|p|)
    ensures Find(body + Closing + t, Closing) == Some(|body|)
  {
    BlockIsBody(e);
    BodyCalm(e);
    AtStart(Block(e), t);
    OpeningFound(p, Block(e) + t);
    ClosingFound(body, t);
  }

  lemma {:induction false} AtStart(s: string, t: string)
    requires At(s, 0, Opening)
    ensures At(s + t, 0, Opening)
  {
    assert (s + t)[0..9] == s[0..9];
  }

  lemma {:induction false} LoadStep(p: string, body: string, t: string, contracts: map<string, Contract>)
    requires Find(p + (body + Closing + t), Opening) == Some(|p|)
    requires Find(body + Closing + t, Closing) == Some(|body|)
    ensures Load(p + (body + Closing + t), contracts) == Load(t, Loaded(ReadBlock(body + Closing), contracts))
  {
    var x := body + Closing + t;
    assert (p + x)[|p|..] == x;
    assert x[..|body| + 4] == body + Closing && x[|body| + 4..] == t;
  }

  lemma {:induction false} LoadNothing(p: string, contracts: map<string, Contract>)
    requires p == "" || p == "\n\n"
    ensures Load(p, contracts) == contracts
  {
  }

  type Loader = (string, map<string, Contract>) -> map<string, Contract>

  ghost predicate IsLoad(load: Loader) {
    forall s, m {:trigger Load(s, m)} :: load(s, m) == Load(s, m)
  }

  lemma {:induction false} BlockStep(load: Loader, p: string, body: string, t: string, r: Option<Entry>,
                                     contracts: map<string, Contract>)
    requires IsLoad(load) && ReadBlock(body + Closing) == r
    requires Find(p + (body + Closing + t), Opening) == Some(|p|)
    requires Find(body + Closing + t, Closing) == Some(|body|)
    ensures load(p + (body + Closing + t), contracts) == load(t, Loaded(r, contracts))
  {
    LoadStep(p, body, t, contracts);
    assert load(p + (body + Closing + t), contracts) == Load(p + (body + Closing + t), contracts);
    assert load(t, Loaded(r, contracts)) == Load(t, Loaded(r, contracts));
  }

  lemma {:induction false} LoadOneStep(load: Loader, p: string, e: Entry, t: string, block: string,
                                       contracts: map<string, Contract>)
    requires IsLoad(load) && (p == "" || p == "\n\n") && EntryOk(e) && block == Block(e)
    ensures load(p + (block + t), contracts)
         == load(t, AddEntry(e, contracts))
  {
    var body := Body(e);
    Located(p, e, t, body);
    BlockRoundTrip(e);
    BlockStep(load, p, body, t, if Lost(e.contract) then None else Some(e.(contract := Printed(e.contract))),
        contracts);
  }

  lemma {:induction false} LoadKeeps(load: Loader, p: string, entries: seq<Entry>, contracts: map<string, Contract>)
    requires IsLoad(load) && (p == "" || p == "\n\n") && forall i :: 0 <= i < |entries| ==> EntryOk(entries[i])
    ensures load(p + RegistryText(entries), contracts) == Kept(entries, contracts)
    decreases |entries|
  {
    if entries == [] {
      assert p + RegistryText(entries) == p;
      LoadNothing(p, contracts);
      assert load(p, contracts) == Load(p, contracts);
    } else {
      var e, t := entries[0], "\n\n" + RegistryText(entries[1..]);
      assert EntryOk(e);
      LoadOneStep(load, p, e, t, Block(e), contracts);
      LoadKeeps(load, "\n\n", entries[1..], AddEntry(e, contracts));
    }
  }

  lemma {:induction false} LoadIsLoad()
    ensures IsLoad(Load)
  {
  }

  lemma {:induction false} LoadGivesKept(entries: seq<Entry>)
    requires forall k :: 0 <= k < |entries| ==> EntryOk(entries[k])
    ensures Load(RegistryText(entries), map[]) == Kept(entries, map[])
  {
    LoadIsLoad();
    LoadKeeps(Load, "", entries, map[]);
    assert "" + RegistryText(entries) == RegistryText(entries);
  }

  ghost predicate DistinctNames(entries: seq<Entry>) {
    forall i, j :: 0 <= i < j < |entries| ==> entries[i].name != entries[j].name
  }

  lemma {:induction false} KeptExactly(entries: seq<Entry>, contracts: map<string, Contract>, i: nat)
    requires DistinctNames(entries) && i < |entries| && entries[i].name !in contracts
    ensures var kept := Kept(entries, contracts);
      if Lost(entries[i].contract) then entries[i].name !in kept
      else entries[i].name in kept && kept[entries[i].name] == Printed(entries[i].contract)
    decreases |entries|
  {
    var e := entries[0];
    var more := AddEntry(e, contracts);
    if i == 0 {
      KeptUntouched(entries[1..], more, e.name);
    } else {
      KeptExactly(entries[1..], more, i - 1);
    }
  }

  lemma {:induction false} KeptUntouched(entries: seq<Entry>, contracts: map<string, Contract>, name: string)
    requires forall i :: 0 <= i < |entries| ==> entries[i].name != name
    ensures name in Kept(entries, contracts) <==> name in contracts
    ensures name in contracts ==> Kept(entries, contracts)[name] == contracts[name]
    decreases |entries|
  {
    if entries != [] {
      var e := entries[0];
      KeptUntouched(entries[1..], AddEntry(e, contracts), name);
    }
  }

  /** Writing a registry and loading it gives every contract back exactly, if and only if it
      is not lost, which only its REQUIRES and its sizes decide; then it is missing. */
  lemma {:induction false} RegistryRoundTrip(entries: seq<Entry>, i: nat)
    requires (forall k :: 0 <= k < |entries| ==> EntryOk(entries[k])) && DistinctNames(entries) && i < |entries|
    ensures var loaded := Load(RegistryText(entries), map[]);
      if Lost(entries[i].contract) then entries[i].name !in loaded
      else entries[i].name in loaded && loaded[entries[i].name] == Printed(entries[i].contract)
  {
    LoadGivesKept(entries);
    KeptExactly(entries, map[], i);
  }
}
