/** Shared vocabulary: the unsigned 32-bit counters of the engine, identities, and the
    failure-carrying wrappers that stand for the exceptions the engine throws. */
module Common {

  /** `uint.MaxValue` */
  const MaxU32: int := 0xFFFF_FFFF
  /** 2^32, the modulus of unchecked `uint` arithmetic */
  const Modulus: int := 0x1_0000_0000

  /** A C# `uint`. */
  type uint32 = x: int | 0 <= x <= MaxU32

  /** A body is identified by the id the world gave it (its position in the body list). */
  type BodyId = nat
  /** A contact object; the world draws a fresh one for every contact it allocates. */
  type ContactId = nat

  function Min(a: int, b: int): int { if a <= b then a else b }
  function Max(a: int, b: int): int { if a >= b then a else b }

  /** Unchecked `uint` arithmetic: the exact result reduced modulo 2^32. */
  function Wrap(x: int): (r: uint32)
    ensures 0 <= x <= MaxU32 ==> r == x
    ensures MaxU32 < x < 2 * Modulus ==> r == x - Modulus
    ensures -Modulus <= x < 0 ==> r == x + Modulus
  {
    x % Modulus
  }

  /** The C# cast `(int)x` of a `uint`: values above `int.MaxValue` turn negative. */
  function AsInt32(x: uint32): (r: int)
    ensures x <= 0x7FFF_FFFF ==> r == x
    ensures x > 0x7FFF_FFFF ==> r < 0
  {
    if x <= 0x7FFF_FFFF then x else x - Modulus
  }

  datatype Option<T> = None | Some(value: T)

  datatype Result<T, E> = Success(value: T) | Failure(error: E)

  datatype Outcome<E> = Pass | Fail(error: E)

  /** No element occurs twice. */
  predicate Distinct<T(==)>(s: seq<T>) {
    forall i, j :: 0 <= i < j < |s| ==> s[i] != s[j]
  }

  /** The tail of a sequence without repeats has none either, and no longer holds the head. */
  lemma DistinctTail<T>(s: seq<T>)
    requires Distinct(s) && s != []
    ensures Distinct(s[1..]) && s[0] !in s[1..]
  {
    forall i, j | 0 <= i < j < |s[1..]| ensures s[1..][i] != s[1..][j] {
      assert s[1..][i] == s[i + 1] && s[1..][j] == s[j + 1];
    }
    forall i | 0 <= i < |s[1..]| ensures s[1..][i] != s[0] {
      assert s[1..][i] == s[i + 1];
    }
  }

  /** Concatenation regroups freely. */
  lemma AppendAssociates<T>(a: seq<T>, b: seq<T>, c: seq<T>)
    ensures (a + b) + c == a + (b + c)
  {
  }
}
