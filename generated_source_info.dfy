/** The generator's output record: the diagnostics to report and the text
    of the one generated file, with the equality and hash the incremental
    pipeline uses to decide whether anything changed. */
module GeneratedSourceInfos {
  import opened Bits
  import opened Diagnostics

  /** An `ImmutableArray<Diagnostic>`: the items, and the identity of the
      array object that holds them. Only reference-based operations see the
      identity; it is chosen by the runtime when the array is allocated. */
  datatype DiagnosticArray = DiagnosticArray(Identity: nat, Items: seq<Diagnostic>)

  datatype GeneratedSourceInfo = GeneratedSourceInfo(Diagnostics: DiagnosticArray, SourceText: string)

  /** `Enumerable.SequenceEqual`: same length and equal element by element. */
  predicate SequenceEqual(a: seq<Diagnostic>, b: seq<Diagnostic>)
  {
    |a| == |b| && forall i | 0 <= i < |a| :: a[i] == b[i]
  }

  lemma SequenceEqualIsEquality(a: seq<Diagnostic>, b: seq<Diagnostic>)
    ensures SequenceEqual(a, b) <==> a == b
  {
    if SequenceEqual(a, b) {
      assert a == b;
    }
  }

  predicate Equals(a: GeneratedSourceInfo, b: GeneratedSourceInfo)
  {
    SequenceEqual(a.Diagnostics.Items, b.Diagnostics.Items) && a.SourceText == b.SourceText
  }

  predicate EqualOperator(a: GeneratedSourceInfo, b: GeneratedSourceInfo)
  {
    Equals(a, b)
  }

  predicate NotEqualOperator(a: GeneratedSourceInfo, b: GeneratedSourceInfo)
  {
    !EqualOperator(a, b)
  }

  /** What `Equals(object)` can be handed. */
  datatype Boxed = BoxedInfo(info: GeneratedSourceInfo) | OtherObject

  predicate EqualsObject(a: GeneratedSourceInfo, o: Boxed)
  {
    o.BoxedInfo? && Equals(a, o.info)
  }

  /** Equality compares the diagnostics item by item and the text, never
      the array object; it is an equivalence; the operators and the boxed
      overload agree with it. */
  lemma EqualsSpec(a: GeneratedSourceInfo, b: GeneratedSourceInfo, c: GeneratedSourceInfo)
    ensures Equals(a, b) <==> a.Diagnostics.Items == b.Diagnostics.Items && a.SourceText == b.SourceText
    ensures Equals(a, a)
    ensures Equals(a, b) ==> Equals(b, a)
    ensures Equals(a, b) && Equals(b, c) ==> Equals(a, c)
    ensures EqualOperator(a, b) <==> Equals(a, b)
    ensures NotEqualOperator(a, b) <==> !Equals(a, b)
    ensures EqualsObject(a, BoxedInfo(b)) <==> Equals(a, b)
    ensures !EqualsObject(a, OtherObject)
  {
    SequenceEqualIsEquality(a.Diagnostics.Items, b.Diagnostics.Items);
    SequenceEqualIsEquality(b.Diagnostics.Items, c.Diagnostics.Items);
    SequenceEqualIsEquality(a.Diagnostics.Items, c.Diagnostics.Items);
  }

  // ---- the hash ----------------------------------------------------------------

  /** One step of the multiply-and-add combination in `unchecked` 32-bit
      arithmetic. */
  function Combine(hash: int32, value: int32): int32
  {
    Wrap32(hash as int * 31 + value as int)
  }

  /** `GetHashCode` as written: 17, then the array's hash, then the text's.
      `ImmutableArray<T>.GetHashCode` hashes the array object it wraps, so
      `arrayHash` sees only the identity; `stringHash` is `string.GetHashCode`. */
  function GetHashCodeAsWritten(a: GeneratedSourceInfo, arrayHash: nat -> int32, stringHash: string -> int32): int32
  {
    Combine(Combine(17, arrayHash(a.Diagnostics.Identity)), stringHash(a.SourceText))
  }

  /** Values that differ by a multiple of 2^32 wrap to the same `int`. */
  lemma WrapCongruent(x: int, y: int, k: int)
    requires x == y + k * TwoTo32
    ensures Wrap32(x) == Wrap32(y)
  {
    assert (x + 0x8000_0000) % TwoTo32 == (y + 0x8000_0000) % TwoTo32 by {
      assert x + 0x8000_0000 == (y + 0x8000_0000) + k * TwoTo32;
    }
  }

  /** The hash is `(17 * 31 + h(diagnostics)) * 31 + h(text)` taken modulo
      2^32 into the `int` range: wrapping after each step is wrapping once
      at the end. */
  lemma HashClosedForm(a: GeneratedSourceInfo, arrayHash: nat -> int32, stringHash: string -> int32)
    ensures var ah := arrayHash(a.Diagnostics.Identity) as int;
      var sh := stringHash(a.SourceText) as int;
      GetHashCodeAsWritten(a, arrayHash, stringHash) == Wrap32((17 * 31 + ah) * 31 + sh)
  {
    var ah := arrayHash(a.Diagnostics.Identity) as int;
    var sh := stringHash(a.SourceText) as int;
    var first := Combine(17, arrayHash(a.Diagnostics.Identity)) as int;
    var k := (first - (17 * 31 + ah)) / TwoTo32;
    assert first == 17 * 31 + ah + k * TwoTo32;
    assert first * 31 + sh == (17 * 31 + ah) * 31 + sh + (31 * k) * TwoTo32;
    WrapCongruent(first * 31 + sh, (17 * 31 + ah) * 31 + sh, 31 * k);
  }

  /** Two equal outputs whose diagnostics sit in different (empty) arrays:
      with an identity-based array hash that tells the arrays apart, the
      hashes differ, although `Equals` holds. */
  lemma GetHashCodeAsWrittenBreaksEquality()
    ensures var a := GeneratedSourceInfo(DiagnosticArray(0, []), "");
      var b := GeneratedSourceInfo(DiagnosticArray(1, []), "");
      var arrayHash := (id: nat) => Wrap32(id);
      var stringHash := (s: string) => 0 as int32;
      && Equals(a, b)
      && GetHashCodeAsWritten(a, arrayHash, stringHash) == 16337
      && GetHashCodeAsWritten(b, arrayHash, stringHash) == 16368
  {
    var a := GeneratedSourceInfo(DiagnosticArray(0, []), "");
    var b := GeneratedSourceInfo(DiagnosticArray(1, []), "");
    var arrayHash := (id: nat) => Wrap32(id);
    var stringHash := (s: string) => 0 as int32;
    assert Combine(17, 0) == 527 && Combine(527, 0) == 16337;
    assert Combine(17, 1) == 528 && Combine(528, 0) == 16368;
  }

  /** The diagnostics' hash taken over their items, in order, as
      `SequenceEqual` compares them. */
  function ItemsHash(items: seq<Diagnostic>, itemHash: Diagnostic -> int32): int32
  {
    if items == [] then 0 else Combine(ItemsHash(items[..|items| - 1], itemHash), itemHash(items[|items| - 1]))
  }

  /** The hash with the array's hash replaced by the items' hash. */
  function GetHashCode(a: GeneratedSourceInfo, itemHash: Diagnostic -> int32, stringHash: string -> int32): int32
  {
    Combine(Combine(17, ItemsHash(a.Diagnostics.Items, itemHash)), stringHash(a.SourceText))
  }

  /** Equal outputs hash alike, whatever arrays hold their diagnostics. */
  lemma GetHashCodeRespectsEquals(a: GeneratedSourceInfo, b: GeneratedSourceInfo,
                                  itemHash: Diagnostic -> int32, stringHash: string -> int32)
    requires Equals(a, b)
    ensures GetHashCode(a, itemHash, stringHash) == GetHashCode(b, itemHash, stringHash)
  {
    SequenceEqualIsEquality(a.Diagnostics.Items, b.Diagnostics.Items);
  }
}
