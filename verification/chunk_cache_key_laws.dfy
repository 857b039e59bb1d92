/** The promises a cache relies on when it uses `ChunkCacheKey` as a map
    key: `equals` is an equivalence relation that coincides with equality
    of the three fields, and equal keys have equal hashes. */
module ChunkCacheKeyLaws {
  import opened JavaInt
  import opened JavaStrings
  import JavaDecimal
  import opened ChunkCacheKeys

  /** A non-null `String` reference holding the given literal. */
  function NonNull(s: string): NullableString {
    Some(Utf16(s))
  }

  /** `a.equals(b)` for two keys. */
  predicate KeyEquals(a: ChunkCacheKey, b: ChunkCacheKey) {
    ChunkCacheKeys.Equals(a, KeyObject(b))
  }

  ghost predicate IsEquivalence<T(!new)>(rel: (T, T) -> bool) {
    && (forall x :: rel(x, x))
    && (forall x, y :: rel(x, y) <==> rel(y, x))
    && (forall x, y, z :: rel(x, y) && rel(y, z) ==> rel(x, z))
  }

  lemma EqualsReflexive(a: ChunkCacheKey)
    ensures ChunkCacheKeys.Equals(a, KeyObject(a))
  {
  }

  lemma EqualsSymmetric(a: ChunkCacheKey, b: ChunkCacheKey)
    ensures ChunkCacheKeys.Equals(a, KeyObject(b)) <==> ChunkCacheKeys.Equals(b, KeyObject(a))
  {
  }

  lemma EqualsTransitive(a: ChunkCacheKey, b: ChunkCacheKey, c: ChunkCacheKey)
    requires ChunkCacheKeys.Equals(a, KeyObject(b)) && ChunkCacheKeys.Equals(b, KeyObject(c))
    ensures ChunkCacheKeys.Equals(a, KeyObject(c))
  {
  }

  lemma EqualsIsEquivalence()
    ensures IsEquivalence(KeyEquals)
  {
  }

  /** `equals` never holds against `null` or an object of another class. */
  lemma EqualsRejectsNonKeys(a: ChunkCacheKey, obj: JavaObject)
    requires !obj.KeyObject?
    ensures !ChunkCacheKeys.Equals(a, obj)
  {
  }

  /** Because the cached hash is a function of the three fields, `equals`
      holds exactly when the two keys are the same value. */
  lemma EqualsIffSameValue(a: ChunkCacheKey, b: ChunkCacheKey)
    ensures ChunkCacheKeys.Equals(a, KeyObject(b)) <==> a == b
  {
  }

  /** Keys that are `equals` have the same `hashCode()`. */
  lemma EqualKeysHaveEqualHashes(a: ChunkCacheKey, b: ChunkCacheKey)
    requires ChunkCacheKeys.Equals(a, KeyObject(b))
    ensures ChunkCacheKeys.HashCode(a) == ChunkCacheKeys.HashCode(b)
  {
  }

  /** Two keys built from the constructor are `equals` exactly when they
      were given the same three arguments. */
  lemma NewEqualsIffSameArguments(
    indexName1: NullableString, fileName1: NullableString, chunkId1: Int32,
    indexName2: NullableString, fileName2: NullableString, chunkId2: Int32)
    ensures ChunkCacheKeys.Equals(New(indexName1, fileName1, chunkId1), KeyObject(New(indexName2, fileName2, chunkId2)))
        <==> indexName1 == indexName2 && fileName1 == fileName2 && chunkId1 == chunkId2
  {
  }

  /** The order of the fields in the hash matters: `31^2*chunkId` comes
      first, `31*hash(fileName)` second and `hash(indexName)` last, so
      swapping the two names generally changes the hash. */
  lemma HashExampleSmall()
    ensures ChunkCacheKeys.HashCode(New(NonNull("b"), NonNull("a"), 1)) == 33857
    ensures ChunkCacheKeys.HashCode(New(NonNull("a"), NonNull("b"), 1)) == 33887
  {
    assert Utf16("a") == [97] && Utf16("b") == [98];
    assert Poly([97]) == 97 && Poly([98]) == 98;
  }

  lemma EqualsExamples()
    ensures ChunkCacheKeys.Equals(New(NonNull("idx1"), NonNull("segments.gen"), 0),
                                  KeyObject(New(NonNull("idx1"), NonNull("segments.gen"), 0)))
    ensures !ChunkCacheKeys.Equals(New(NonNull("idx1"), NonNull("segments.gen"), 0),
                                   KeyObject(New(NonNull("idx1"), NonNull("segments.gen"), 1)))
    ensures !ChunkCacheKeys.Equals(New(NonNull("idxA"), NonNull("f"), 3),
                                   KeyObject(New(NonNull("idxB"), NonNull("f"), 3)))
  {
    NewEqualsIffSameArguments(NonNull("idx1"), NonNull("segments.gen"), 0, NonNull("idx1"), NonNull("segments.gen"), 1);
    assert NonNull("idxA").value[3] != NonNull("idxB").value[3];
    NewEqualsIffSameArguments(NonNull("idxA"), NonNull("f"), 3, NonNull("idxB"), NonNull("f"), 3);
  }

  /** A rendering as a logging call would show it, piece by piece:
      `ChunkCacheKey{chunkId=2, fileName=file.txt, indexName=idx1} `. */
  lemma ToStringExample()
    ensures ToString(New(NonNull("idx1"), NonNull("file.txt"), 2))
         == Utf16("ChunkCacheKey{chunkId=") + Utf16("2") + Utf16(", fileName=") + Utf16("file.txt")
          + Utf16(", indexName=") + Utf16("idx1") + Utf16("} ")
  {
    assert Utf16("2") == JavaDecimal.ToDecimal(2);
    Regroup(Utf16("ChunkCacheKey{chunkId="), Utf16("2"), Utf16(", fileName="), Utf16("file.txt"),
            Utf16(", indexName="), Utf16("idx1"), Utf16("} "));
  }

  /** A `null` name renders as `null`. */
  lemma ToStringNullExample()
    ensures ToString(New(None, None, -7))
         == Utf16("ChunkCacheKey{chunkId=") + Utf16("-7") + Utf16(", fileName=") + Utf16("null")
          + Utf16(", indexName=") + Utf16("null") + Utf16("} ")
  {
    assert Utf16("-7") == JavaDecimal.ToDecimal(-7);
    Regroup(Utf16("ChunkCacheKey{chunkId="), Utf16("-7"), Utf16(", fileName="), Utf16("null"),
            Utf16(", indexName="), Utf16("null"), Utf16("} "));
  }

  lemma Regroup(a: JString, b: JString, c: JString, d: JString,
                e: JString, f: JString, g: JString)
    ensures a + b + (c + d + e + f + g) == a + b + c + d + e + f + g
  {
  }
}
