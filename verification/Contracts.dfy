/** Contracts as compiler/src/ast.rs:22-62 declares them. */
module Contracts {

  datatype Type = Bytes | Int | Float | String

  datatype Guarantee = Pure | NoAlloc | WritesOutput

  /** A 64-bit usize. */
  type Size = n: int | 0 <= n < 0x1_0000_0000_0000_0000

  datatype Parameter = Parameter(name: string, typ: Type, size: Size)

  /** A required behavior and the hash it is pinned to. */
  datatype BehaviorRef = BehaviorRef(name: string, hash: string)

  datatype Contract = Contract(
    inputs: seq<Parameter>, outputs: seq<Parameter>, behaviors: seq<BehaviorRef>, memory: seq<string>,
    guarantees: seq<Guarantee>)

  // ----- identifiers -----------------------------------------------------------------

  predicate IsDigit(c: char) { '0' <= c <= '9' }
  predicate IsUpper(c: char) { 'A' <= c <= 'Z' }
  predicate IsLower(c: char) { 'a' <= c <= 'z' }

  /** What may follow the first character of an identifier, compiler/src/lexer.rs:288. */
  predicate IsIdentChar(c: char) { IsDigit(c) || IsUpper(c) || IsLower(c) || c == '_' || c == '-' }

  predicate IsIdentStart(c: char) { IsUpper(c) || IsLower(c) || c == '_' }

  predicate IsIdentifier(s: string) {
    s != [] && IsIdentStart(s[0]) && forall i :: 0 <= i < |s| ==> IsIdentChar(s[i])
  }

  predicate IsLowerHex(c: char) { IsDigit(c) || 'a' <= c <= 'f' }

  predicate IsHex(c: char) { IsLowerHex(c) || 'A' <= c <= 'F' }
}
