/** The bytes compiler/src/hash.rs:22-77 feeds to SHA-256, as a uniquely decodable encoding of
    the contract. */
module HashPreImage {
  import opened Contracts

  // ----- the encoding --------------------------------------------------------------------

  /** Characters of names and pins are ASCII, so a string is its own UTF-8 encoding. */
  function Ascii(s: string): (r: seq<int>)
    ensures |r| == |s| && forall i :: 0 <= i < |s| ==> r[i] == s[i] as int
  {
    seq(|s|, i requires 0 <= i < |s| => s[i] as int)
  }

  function TypeByte(t: Type): int {
    match t
    case Int => 1
    case Float => 2
    case Bytes => 3
    case String => 4
  }

  function GuaranteeByte(g: Guarantee): int {
    match g
    case Pure => 1
    case NoAlloc => 2
    case WritesOutput => 3
  }

  /** n in k bytes, least significant first. */
  function LittleEndian(n: nat, k: nat): (r: seq<int>)
    ensures |r| == k
  {
    if k == 0 then [] else [n % 256] + LittleEndian(n / 256, k - 1)
  }

  function ParameterBytes(p: Parameter): seq<int> {
    Ascii(p.name) + [TypeByte(p.typ)] + LittleEndian(p.size, 8)
  }

  function ParametersBytes(ps: seq<Parameter>): seq<int> {
    if ps == [] then [] else ParameterBytes(ps[0]) + ParametersBytes(ps[1..])
  }

  function ReferenceBytes(r: BehaviorRef): seq<int> { Ascii(r.name) + Ascii("@") + Ascii(r.hash) }

  function ReferencesBytes(rs: seq<BehaviorRef>): seq<int> {
    if rs == [] then [] else ReferenceBytes(rs[0]) + ReferencesBytes(rs[1..])
  }

  function GuaranteesBytes(gs: seq<Guarantee>): (r: seq<int>)
    ensures |r| == |gs|
  {
    seq(|gs|, i requires 0 <= i < |gs| => GuaranteeByte(gs[i]))
  }

  function PreImage(c: Contract): seq<int> {
    Ascii("INPUTS:") + (ParametersBytes(c.inputs)
      + (Ascii("OUTPUTS:") + (ParametersBytes(c.outputs)
      + (Ascii("REQUIRES:") + (ReferencesBytes(c.behaviors)
      + (Ascii("GUARANTEES:") + GuaranteesBytes(c.guarantees)))))))
  }

  // ----- byte by byte ------------------------------------------------------------------------

  /** The number that bytes write, the first one counting least. */
  function Weight(bytes: seq<int>): int {
    if bytes == [] then 0 else bytes[0] + 256 * Weight(bytes[1..])
  }

  predicate AreBytes(s: seq<int>) { forall i :: 0 <= i < |s| ==> 0 <= s[i] < 256 }

  lemma {:induction false} LittleEndianWeighs(n: nat, k: nat)
    requires n < Power256(k)
    ensures Weight(LittleEndian(n, k)) == n && AreBytes(LittleEndian(n, k))
    decreases k
  {
    if k > 0 {
      LittleEndianWeighs(n / 256, k - 1);
    }
  }

  /** A parameter is fed as its name, a type byte from 1 to 4, and its size as eight bytes with the
      least significant first. */
  lemma {:induction false} ParameterByteByByte(p: Parameter)
    ensures var b, n := ParameterBytes(p), |p.name|;
      && |b| == n + 9 && (forall i :: 0 <= i < n ==> b[i] == p.name[i] as int)
      && (p.typ == Int ==> b[n] == 1) && (p.typ == Float ==> b[n] == 2)
      && (p.typ == Bytes ==> b[n] == 3) && (p.typ == String ==> b[n] == 4)
      && AreBytes(b[n + 1..]) && Weight(b[n + 1..]) == p.size
  {
    var b, n := ParameterBytes(p), |p.name|;
    assert b[n + 1..] == LittleEndian(p.size, 8);
    SizesFit();
    LittleEndianWeighs(p.size, 8);
  }

  /** A reference is fed as its name, an at sign and its hash. */
  lemma {:induction false} ReferenceByteByByte(r: BehaviorRef)
    ensures var b, n := ReferenceBytes(r), |r.name|;
      && |b| == n + 1 + |r.hash| && b[n] == 64
      && (forall i :: 0 <= i < n ==> b[i] == r.name[i] as int)
      && (forall i :: 0 <= i < |r.hash| ==> b[n + 1 + i] == r.hash[i] as int)
  {
  }

  /** A guarantee is fed as a byte from 1 to 3. */
  lemma {:induction false} GuaranteeByteByByte(gs: seq<Guarantee>, i: nat)
    requires i < |gs|
    ensures gs[i] == Pure ==> GuaranteesBytes(gs)[i] == 1
    ensures gs[i] == NoAlloc ==> GuaranteesBytes(gs)[i] == 2
    ensures gs[i] == WritesOutput ==> GuaranteesBytes(gs)[i] == 3
  {
  }

  /** Parameters and references are fed in their order. */
  lemma {:induction false} ParametersInOrder(ps: seq<Parameter>, p: Parameter)
    ensures ParametersBytes(ps + [p]) == ParametersBytes(ps) + ParameterBytes(p)
  {
    if ps == [] {
      assert ps + [p] == [p] && [p][1..] == [];
    } else {
      assert (ps + [p])[1..] == ps[1..] + [p];
      ParametersInOrder(ps[1..], p);
    }
  }

  lemma {:induction false} ReferencesInOrder(rs: seq<BehaviorRef>, r: BehaviorRef)
    ensures ReferencesBytes(rs + [r]) == ReferencesBytes(rs) + ReferenceBytes(r)
  {
    if rs == [] {
      assert rs + [r] == [r] && [r][1..] == [];
    } else {
      assert (rs + [r])[1..] == rs[1..] + [r];
      ReferencesInOrder(rs[1..], r);
    }
  }

  lemma {:induction false} InputsHeading()
    ensures Ascii("INPUTS:") == [73, 78, 80, 85, 84, 83, 58]
  {
  }

  lemma {:induction false} OutputsHeading()
    ensures Ascii("OUTPUTS:") == [79, 85, 84, 80, 85, 84, 83, 58]
  {
  }

  lemma {:induction false} RequiresHeading()
    ensures Ascii("REQUIRES:") == [82, 69, 81, 85, 73, 82, 69, 83, 58]
  {
  }

  lemma {:induction false} GuaranteesHeading()
    ensures Ascii("GUARANTEES:") == [71, 85, 65, 82, 65, 78, 84, 69, 69, 83, 58]
  {
  }

  /** The headings, and which section follows each. */
  lemma {:induction false} HeadingsByteByByte(c: Contract)
    ensures PreImage(c) == [73, 78, 80, 85, 84, 83, 58] + (ParametersBytes(c.inputs)
              + ([79, 85, 84, 80, 85, 84, 83, 58] + (ParametersBytes(c.outputs)
              + ([82, 69, 81, 85, 73, 82, 69, 83, 58] + (ReferencesBytes(c.behaviors)
              + ([71, 85, 65, 82, 65, 78, 84, 69, 69, 83, 58] + GuaranteesBytes(c.guarantees)))))))
  {
    InputsHeading();
    OutputsHeading();
    RequiresHeading();
    GuaranteesHeading();
  }

  // ----- feeding the hasher ----------------------------------------------------------------

  class Hasher {
    var fed: seq<int>

    constructor ()
      ensures fed == []
    {
      fed := [];
    }

    method Update(bytes: seq<int>)
      modifies this
      ensures fed == old(fed) + bytes
    {
      fed := fed + bytes;
    }

    method FeedParameters(ps: seq<Parameter>)
      modifies this
      ensures fed == old(fed) + ParametersBytes(ps)
    {
      ghost var start := fed;
      for i := 0 to |ps|
        invariant fed + ParametersBytes(ps[i..]) == start + ParametersBytes(ps)
      {
        ghost var before := fed;
        Update(Ascii(ps[i].name));
        Update([TypeByte(ps[i].typ)]);
        Update(LittleEndian(ps[i].size, 8));
        assert ps[i..][0] == ps[i] && ps[i..][1..] == ps[i + 1..];
        Regroup(before, Ascii(ps[i].name), [TypeByte(ps[i].typ)], LittleEndian(ps[i].size, 8),
            ParametersBytes(ps[i + 1..]));
      }
    }

    method FeedReferences(rs: seq<BehaviorRef>)
      modifies this
      ensures fed == old(fed) + ReferencesBytes(rs)
    {
      ghost var start := fed;
      for i := 0 to |rs|
        invariant fed + ReferencesBytes(rs[i..]) == start + ReferencesBytes(rs)
      {
        ghost var before := fed;
        Update(Ascii(rs[i].name));
        Update(Ascii("@"));
        Update(Ascii(rs[i].hash));
        assert rs[i..][0] == rs[i] && rs[i..][1..] == rs[i + 1..];
        Regroup(before, Ascii(rs[i].name), Ascii("@"), Ascii(rs[i].hash), ReferencesBytes(rs[i + 1..]));
      }
    }

    method FeedGuarantees(gs: seq<Guarantee>)
      modifies this
      ensures fed == old(fed) + GuaranteesBytes(gs)
    {
      ghost var start := fed;
      for i := 0 to |gs|
        invariant fed == start + GuaranteesBytes(gs)[..i]
      {
        Update([GuaranteeByte(gs[i])]);
      }
    }

    method FeedParameterSection(heading: string, ps: seq<Parameter>)
      modifies this
      ensures fed == old(fed) + (Ascii(heading) + ParametersBytes(ps))
    {
      Update(Ascii(heading));
      FeedParameters(ps);
    }

    /** All updates of compute_contract_hash, in order. */
    method FeedContract(c: Contract)
      requires fed == []
      modifies this
      ensures fed == PreImage(c)
    {
      FeedParameterSection("INPUTS:", c.inputs);
      FeedParameterSection("OUTPUTS:", c.outputs);
      Update(Ascii("REQUIRES:"));
      FeedReferences(c.behaviors);
      Update(Ascii("GUARANTEES:"));
      FeedGuarantees(c.guarantees);
      Nest(Ascii("INPUTS:"), ParametersBytes(c.inputs), Ascii("OUTPUTS:"), ParametersBytes(c.outputs),
           Ascii("REQUIRES:"), ReferencesBytes(c.behaviors), Ascii("GUARANTEES:"), GuaranteesBytes(c.guarantees));
    }
  }

  lemma {:induction false} Regroup(z: seq<int>, a: seq<int>, b: seq<int>, c: seq<int>, rest: seq<int>)
    ensures z + a + b + c + rest == z + (a + b + c + rest)
  {
  }

  lemma {:induction false} Nest(a: seq<int>, b: seq<int>, c: seq<int>, d: seq<int>, e: seq<int>, f: seq<int>,
                                g: seq<int>, h: seq<int>)
    ensures [] + (a + b) + (c + d) + e + f + g + h == a + (b + (c + (d + (e + (f + (g + h))))))
  {
    assert e + f + g + h == e + (f + (g + h));
    assert (c + d) + (e + f + g + h) == c + (d + (e + f + g + h));
  }

  // ----- unique decoding --------------------------------------------------------------------

  predicate IsNameByte(b: int) { 48 <= b <= 57 || 65 <= b <= 90 || 97 <= b <= 122 || b == 95 || b == 45 }

  /** A string over the identifier alphabet. */
  predicate NameLike(s: string) { forall i :: 0 <= i < |s| ==> IsIdentChar(s[i]) }

  predicate NamesOk(ps: seq<Parameter>) { forall i :: 0 <= i < |ps| ==> NameLike(ps[i].name) }

  predicate RefsOk(rs: seq<BehaviorRef>, pin: nat) {
    forall i :: 0 <= i < |rs| ==> NameLike(rs[i].name) && |rs[i].hash| == pin
  }

  lemma {:induction false} AsciiInjective(a: string, b: string)
    requires Ascii(a) == Ascii(b)
    ensures a == b
  {
    forall i | 0 <= i < |a| ensures a[i] == b[i] {
      assert Ascii(a)[i] == Ascii(b)[i];
    }
  }

  lemma {:induction false} NameBytes(s: string)
    requires NameLike(s)
    ensures forall i :: 0 <= i < |s| ==> IsNameByte(Ascii(s)[i])
  {
  }

  /** A run of name bytes ends at the first byte that is none. */
  lemma {:induction false} RunUnique(a: seq<int>, s: int, x: seq<int>, b: seq<int>, t: int, y: seq<int>)
    requires (forall i :: 0 <= i < |a| ==> IsNameByte(a[i])) && !IsNameByte(s)
    requires (forall i :: 0 <= i < |b| ==> IsNameByte(b[i])) && !IsNameByte(t)
    requires a + ([s] + x) == b + ([t] + y)
    ensures a == b && s == t && x == y
  {
    var l, r := a + ([s] + x), b + ([t] + y);
    assert l[|a|] == s && r[|b|] == t;
    if |a| < |b| {
      assert false;
    }
    if |b| < |a| {
      assert false;
    }
    assert a == l[..|a|] && b == r[..|b|];
    assert [s] + x == l[|a|..] && [t] + y == r[|b|..];
    assert s == ([s] + x)[0] && x == ([s] + x)[1..];
    assert t == ([t] + y)[0] && y == ([t] + y)[1..];
  }

  lemma {:induction false} SplitAt(a: seq<int>, x: seq<int>, b: seq<int>, y: seq<int>)
    requires a + x == b + y && |a| == |b|
    ensures a == b && x == y
  {
    assert a == (a + x)[..|a|] && b == (b + y)[..|b|];
    assert x == (a + x)[|a|..] && y == (b + y)[|b|..];
  }

  lemma {:induction false} LittleEndianInjective(m: nat, n: nat, k: nat)
    requires LittleEndian(m, k) == LittleEndian(n, k)
    requires m < Power256(k) && n < Power256(k)
    ensures m == n
  {
    if k > 0 {
      var a, b := LittleEndian(m, k), LittleEndian(n, k);
      assert a[0] == m % 256 && b[0] == n % 256;
      assert a[1..] == LittleEndian(m / 256, k - 1) && b[1..] == LittleEndian(n / 256, k - 1);
      LittleEndianInjective(m / 256, n / 256, k - 1);
    }
  }

  function Power256(k: nat): nat { if k == 0 then 1 else 256 * Power256(k - 1) }

  lemma {:induction false} SizesFit()
    ensures Power256(8) == 0x1_0000_0000_0000_0000
  {
    assert Power256(4) == 0x1_0000_0000;
  }

  /** A parameter and a section heading begin differently. */
  lemma {:induction false} HeadParameter(p: Parameter, x: seq<int>)
    ensures ParameterBytes(p) + x == Ascii(p.name) + ([TypeByte(p.typ)] + (LittleEndian(p.size, 8) + x))
    ensures !IsNameByte(TypeByte(p.typ)) && TypeByte(p.typ) != 58
  {
  }

  lemma {:induction false} SameHeadParameter(p: Parameter, q: Parameter, x: seq<int>, y: seq<int>)
    requires NameLike(p.name) && NameLike(q.name)
    requires ParameterBytes(p) + x == ParameterBytes(q) + y
    ensures p == q && x == y
  {
    HeadParameter(p, x);
    HeadParameter(q, y);
    NameBytes(p.name);
    NameBytes(q.name);
    RunUnique(Ascii(p.name), TypeByte(p.typ), LittleEndian(p.size, 8) + x,
              Ascii(q.name), TypeByte(q.typ), LittleEndian(q.size, 8) + y);
    AsciiInjective(p.name, q.name);
    SplitAt(LittleEndian(p.size, 8), x, LittleEndian(q.size, 8), y);
    SizesFit();
    LittleEndianInjective(p.size, q.size, 8);
  }

  /** A section heading: a word of name bytes and a colon. */
  predicate Heading(h: seq<int>) {
    h != [] && h[|h| - 1] == 58 && forall i :: 0 <= i < |h| - 1 ==> IsNameByte(h[i])
  }

  lemma {:induction false} HeadingIsNoParameter(h: seq<int>, x: seq<int>, p: Parameter, y: seq<int>)
    requires Heading(h) && NameLike(p.name)
    ensures h + x != ParameterBytes(p) + y
  {
    if h + x == ParameterBytes(p) + y {
      var n := |h| - 1;
      assert h == h[..n] + [58];
      assert h + x == h[..n] + ([58] + x);
      HeadParameter(p, y);
      NameBytes(p.name);
      RunUnique(h[..n], 58, x, Ascii(p.name), TypeByte(p.typ), LittleEndian(p.size, 8) + y);
    }
  }

  lemma {:induction false} HeadParameters(rs: seq<Parameter>, x: seq<int>)
    requires rs != []
    ensures ParametersBytes(rs) + x == ParameterBytes(rs[0]) + (ParametersBytes(rs[1..]) + x)
  {
  }

  lemma {:induction false} SameParameters(ps: seq<Parameter>, qs: seq<Parameter>, h: seq<int>, x: seq<int>, y: seq<int>)
    requires NamesOk(ps) && NamesOk(qs) && Heading(h)
    requires ParametersBytes(ps) + (h + x) == ParametersBytes(qs) + (h + y)
    ensures ps == qs && x == y
  {
    if ps == [] && qs == [] {
      assert ParametersBytes(ps) + (h + x) == h + x && ParametersBytes(qs) + (h + y) == h + y;
      SplitAt(h, x, h, y);
    } else if ps == [] {
      assert ParametersBytes(ps) + (h + x) == h + x;
      HeadParameters(qs, h + y);
      HeadingIsNoParameter(h, x, qs[0], ParametersBytes(qs[1..]) + (h + y));
    } else if qs == [] {
      assert ParametersBytes(qs) + (h + y) == h + y;
      HeadParameters(ps, h + x);
      HeadingIsNoParameter(h, y, ps[0], ParametersBytes(ps[1..]) + (h + x));
    } else {
      HeadParameters(ps, h + x);
      HeadParameters(qs, h + y);
      SameHeadParameter(ps[0], qs[0], ParametersBytes(ps[1..]) + (h + x), ParametersBytes(qs[1..]) + (h + y));
      SameParameters(ps[1..], qs[1..], h, x, y);
      assert ps == [ps[0]] + ps[1..] && qs == [qs[0]] + qs[1..];
    }
  }

  lemma {:induction false} SameHeadReference(p: BehaviorRef, q: BehaviorRef, x: seq<int>, y: seq<int>)
    requires NameLike(p.name) && NameLike(q.name) && |p.hash| == |q.hash|
    requires ReferenceBytes(p) + x == ReferenceBytes(q) + y
    ensures p == q && x == y
  {
    HeadReference(p, x);
    HeadReference(q, y);
    NameBytes(p.name);
    NameBytes(q.name);
    RunUnique(Ascii(p.name), 64, Ascii(p.hash) + x, Ascii(q.name), 64, Ascii(q.hash) + y);
    AsciiInjective(p.name, q.name);
    SplitAt(Ascii(p.hash), x, Ascii(q.hash), y);
    AsciiInjective(p.hash, q.hash);
  }

  lemma {:induction false} HeadReference(p: BehaviorRef, x: seq<int>)
    ensures ReferenceBytes(p) + x == Ascii(p.name) + ([64] + (Ascii(p.hash) + x))
  {
    assert Ascii("@") == [64];
  }

  lemma {:induction false} HeadingIsNoReference(h: seq<int>, x: seq<int>, p: BehaviorRef, y: seq<int>)
    requires Heading(h) && NameLike(p.name)
    ensures h + x != ReferenceBytes(p) + y
  {
    if h + x == ReferenceBytes(p) + y {
      var n := |h| - 1;
      assert h == h[..n] + [58];
      assert h + x == h[..n] + ([58] + x);
      HeadReference(p, y);
      NameBytes(p.name);
      RunUnique(h[..n], 58, x, Ascii(p.name), 64, Ascii(p.hash) + y);
    }
  }

  lemma {:induction false} HeadReferences(rs: seq<BehaviorRef>, x: seq<int>)
    requires rs != []
    ensures ReferencesBytes(rs) + x == ReferenceBytes(rs[0]) + (ReferencesBytes(rs[1..]) + x)
  {
  }

  lemma {:induction false} SameReferences(ps: seq<BehaviorRef>, qs: seq<BehaviorRef>, k: nat, h: seq<int>, x: seq<int>,
                                          y: seq<int>)
    requires RefsOk(ps, k) && RefsOk(qs, k) && Heading(h)
    requires ReferencesBytes(ps) + (h + x) == ReferencesBytes(qs) + (h + y)
    ensures ps == qs && x == y
  {
    if ps == [] && qs == [] {
      assert ReferencesBytes(ps) + (h + x) == h + x && ReferencesBytes(qs) + (h + y) == h + y;
      SplitAt(h, x, h, y);
    } else if ps == [] {
      assert ReferencesBytes(ps) + (h + x) == h + x;
      HeadReferences(qs, h + y);
      HeadingIsNoReference(h, x, qs[0], ReferencesBytes(qs[1..]) + (h + y));
    } else if qs == [] {
      assert ReferencesBytes(qs) + (h + y) == h + y;
      HeadReferences(ps, h + x);
      HeadingIsNoReference(h, y, ps[0], ReferencesBytes(ps[1..]) + (h + x));
    } else {
      HeadReferences(ps, h + x);
      HeadReferences(qs, h + y);
      SameHeadReference(ps[0], qs[0], ReferencesBytes(ps[1..]) + (h + x), ReferencesBytes(qs[1..]) + (h + y));
      SameReferences(ps[1..], qs[1..], k, h, x, y);
      assert ps == [ps[0]] + ps[1..] && qs == [qs[0]] + qs[1..];
    }
  }

  lemma {:induction false} SameGuarantees(a: seq<Guarantee>, b: seq<Guarantee>)
    requires GuaranteesBytes(a) == GuaranteesBytes(b)
    ensures a == b
  {
    forall i | 0 <= i < |a| ensures a[i] == b[i] {
      assert GuaranteesBytes(a)[i] == GuaranteesBytes(b)[i];
    }
  }

  lemma {:induction false} Headings()
    ensures Heading(Ascii("INPUTS:")) && Heading(Ascii("OUTPUTS:"))
    ensures Heading(Ascii("REQUIRES:")) && Heading(Ascii("GUARANTEES:"))
  {
  }

  /** Equal in everything the hash covers; MEMORY names are not fed to the hasher. */
  predicate SameButMemory(c: Contract, d: Contract) { d == c.(memory := d.memory) }

  /** The pre-image determines the contract but for its MEMORY, for names over the identifier alphabet and pins of
      one common length. */
  lemma {:induction false} PreImageInjective(c: Contract, d: Contract, k: nat)
    requires NamesOk(c.inputs) && NamesOk(c.outputs) && RefsOk(c.behaviors, k)
    requires NamesOk(d.inputs) && NamesOk(d.outputs) && RefsOk(d.behaviors, k)
    requires PreImage(c) == PreImage(d)
    ensures SameButMemory(c, d)
  {
    Headings();
    var gc, gd := GuaranteesBytes(c.guarantees), GuaranteesBytes(d.guarantees);
    var rc := ReferencesBytes(c.behaviors) + (Ascii("GUARANTEES:") + gc);
    var rd := ReferencesBytes(d.behaviors) + (Ascii("GUARANTEES:") + gd);
    var oc := ParametersBytes(c.outputs) + (Ascii("REQUIRES:") + rc);
    var od := ParametersBytes(d.outputs) + (Ascii("REQUIRES:") + rd);
    var ic := ParametersBytes(c.inputs) + (Ascii("OUTPUTS:") + oc);
    var id := ParametersBytes(d.inputs) + (Ascii("OUTPUTS:") + od);
    SplitAt(Ascii("INPUTS:"), ic, Ascii("INPUTS:"), id);
    SameParameters(c.inputs, d.inputs, Ascii("OUTPUTS:"), oc, od);
    SameParameters(c.outputs, d.outputs, Ascii("REQUIRES:"), rc, rd);
    SameReferences(c.behaviors, d.behaviors, k, Ascii("GUARANTEES:"), gc, gd);
    SameGuarantees(c.guarantees, d.guarantees);
  }

  // ----- exactly when it is unique -------------------------------------------------------------

  /** Identifier names, and lowercase hex pins whose lengths are all in lengths. */
  predicate Pinned(c: Contract, lengths: set<nat>) {
    && (forall i :: 0 <= i < |c.inputs| ==> IsIdentifier(c.inputs[i].name))
    && (forall i :: 0 <= i < |c.outputs| ==> IsIdentifier(c.outputs[i].name))
    && (forall i :: 0 <= i < |c.behaviors| ==>
          && IsIdentifier(c.behaviors[i].name) && |c.behaviors[i].hash| in lengths
          && forall j :: 0 <= j < |c.behaviors[i].hash| ==> IsLowerHex(c.behaviors[i].hash[j]))
  }

  ghost predicate InjectiveFor(lengths: set<nat>) {
    forall c, d :: Pinned(c, lengths) && Pinned(d, lengths) && PreImage(c) == PreImage(d) ==> SameButMemory(c, d)
  }

  function As(n: nat): (s: string)
    ensures |s| == n && forall i :: 0 <= i < n ==> s[i] == 'a'
  {
    seq(n, i => 'a')
  }

  function Requiring(rs: seq<BehaviorRef>): Contract { Contract([], [], rs, [], []) }

  lemma {:induction false} TwoReferences(r: BehaviorRef, s: BehaviorRef)
    ensures ReferencesBytes([r, s]) == ReferenceBytes(r) + ReferenceBytes(s)
  {
    assert [r, s][1..] == [s] && [s][1..] == [];
    assert ReferencesBytes([s]) == ReferenceBytes(s) + [];
  }

  /** x@aaaa q@a.. and x@aa aaq@a..: what follows a short pin may be read as part of a long one. */
  lemma {:induction false} MixedPinsCollide(m: nat, n: nat) returns (c: Contract, d: Contract)
    requires m < n
    ensures Pinned(c, {m, n}) && Pinned(d, {m, n}) && !SameButMemory(c, d) && PreImage(c) == PreImage(d)
  {
    var r, s := BehaviorRef("x", As(n)), BehaviorRef("q", As(m));
    var r', s' := BehaviorRef("x", As(m)), BehaviorRef(As(n - m) + "q", As(m));
    c, d := Requiring([r, s]), Requiring([r', s']);
    assert r.hash != r'.hash;
    assert c.behaviors[0] != d.behaviors[0];
    TwoReferences(r, s);
    TwoReferences(r', s');
    assert Ascii(As(n - m) + "q") == Ascii(As(n - m)) + Ascii("q");
    assert Ascii(As(n)) == Ascii(As(m)) + Ascii(As(n - m));
    Shift(Ascii("x"), Ascii("@"), Ascii(As(m)), Ascii(As(n - m)), Ascii("q"));
  }

  lemma {:induction false} Shift(x: seq<int>, at: seq<int>, p: seq<int>, e: seq<int>, q: seq<int>)
    ensures x + at + (p + e) + (q + at + p) == x + at + p + ((e + q) + at + p)
  {
  }

  /** The pre-image identifies contracts exactly when pins of only one length may occur. */
  lemma {:induction false} InjectiveExactlyForOneLength(lengths: set<nat>)
    ensures InjectiveFor(lengths) <==> forall m, n :: m in lengths && n in lengths ==> m == n
  {
    if m, n :| m in lengths && n in lengths && m != n {
      var c, d := MixedPinsCollide(if m < n then m else n, if m < n then n else m);
      assert Pinned(c, lengths) && Pinned(d, lengths);
    } else {
      var k: nat := if lengths == {} then 0 else var k :| k in lengths; k;
      forall c, d | Pinned(c, lengths) && Pinned(d, lengths) && PreImage(c) == PreImage(d) ensures SameButMemory(c, d) {
        PinnedAlike(c, lengths, k);
        PinnedAlike(d, lengths, k);
        PreImageInjective(c, d, k);
      }
    }
  }

  lemma {:induction false} PinnedAlike(c: Contract, lengths: set<nat>, k: nat)
    requires Pinned(c, lengths) && forall m :: m in lengths ==> m == k
    ensures NamesOk(c.inputs) && NamesOk(c.outputs) && RefsOk(c.behaviors, k)
  {
  }
}
