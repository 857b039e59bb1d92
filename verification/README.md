# ChunkCacheKey in Dafny

Infinispan's Lucene directory splits each index file into fixed-size chunks.
It stores every chunk as its own cache entry, keyed by a `ChunkCacheKey`:
the immutable triple `(indexName, fileName, chunkId)`. The key computes its
hash once, in the constructor, and compares the three fields by value in
`equals`. The distributed cache relies on this pair being consistent. This
project models the class and proves that contract.

Files and modules:

- `java_int.dfy`, module `JavaInt`: Java's 32-bit `int` as the subset type
  `Int32`, and `Wrap`, which reduces an exact integer to the `int` that
  Java's wrap-around `+` and `*` produce. Lemmas show when wrapping after
  every step agrees with wrapping once.
- `java_string.dfy`, module `JavaStrings`: a `String` as a sequence of UTF-16
  code units, `null` as `None`, and the JDK behaviour the key depends on:
  - `String.hashCode`, the wrapping Horner loop, proved equal to the
    documented polynomial `s[0]*31^(n-1) + ... + s[n-1]` reduced to 32 bits;
  - `String.equals`, compared code unit by code unit;
  - `String.valueOf`, which turns `null` into `"null"` during concatenation;
  - `EncodeChar` and `Utf16`, which turn a Dafny string literal into the
    UTF-16 code units that the Java compiler stores for it, as for the
    labels of `toString`.
- `java_decimal.dfy`, module `JavaDecimal`: `Integer.toString(int)`, which
  `toString` uses for `chunkId`. Its partner is a reader that parses the
  text back into the number.
- `chunk_cache_key.dfy`, module `ChunkCacheKeys`: the class itself.
  - The private fields are the datatype `KeyFields`.
  - The class invariant "cached hash == `generatedHashCode()`" is the subset
    type `ChunkCacheKey`. The constructor establishes it. The model takes it
    for every key, which also covers a key read back by default
    deserialization from a stream that a constructed key wrote (see
    "Left out").
  - The argument of `equals(Object)` is a `JavaObject`: `null`, a key, or an
    instance of another class.
  - The model has the constructor `New`, the three getters, `HashCode`,
    `GeneratedHashCode`, `Equals` and `ToString`.
- `chunk_cache_key_laws.dfy`, module `ChunkCacheKeyLaws`: `equals` is an
  equivalence relation, it holds exactly for equal key values, equal keys
  hash alike, plus concrete examples.

`chunkId` is a chunk's position, but the constructor
(ChunkCacheKey.java:43-48) checks nothing, so `chunkId` is any `Int32` here,
negative values included, and either name may be `null`.

## Model

| member | source | states |
|---|---|---|
| JavaInt.Wrap | lucene-directory/src/main/java/org/infinispan/lucene/ChunkCacheKey.java:84-88 | the result is the unique 32-bit int congruent to the exact value modulo 2^32, and values already in range are unchanged |
| JavaInt.Add | lucene-directory/src/main/java/org/infinispan/lucene/ChunkCacheKey.java:85-87 | `+` on two ints gives the exact sum when it fits and otherwise the sum shifted by 2^32 back into range, the value agreeing with the exact sum in the low 32 bits |
| JavaInt.Mul | lucene-directory/src/main/java/org/infinispan/lucene/ChunkCacheKey.java:85-87 | `*` on two ints gives the exact product when it fits and otherwise the int agreeing with it in the low 32 bits |
| JavaInt.WrapCongruent | lucene-directory/src/main/java/org/infinispan/lucene/ChunkCacheKey.java:84-88 | two integers congruent modulo 2^32 give the same int |
| JavaInt.MulAddStep | lucene-directory/src/main/java/org/infinispan/lucene/ChunkCacheKey.java:85 | one `prime * result + x` step in wrapping int arithmetic, applied to an already-wrapped result, equals the exact step wrapped once |
| JavaStrings.PolySnoc | lucene-directory/src/main/java/org/infinispan/lucene/ChunkCacheKey.java:86-87 | appending a code unit multiplies the base-31 polynomial by 31 and adds the unit, so the polynomial is what a left-to-right loop computes |
| JavaStrings.HashCode | lucene-directory/src/main/java/org/infinispan/lucene/ChunkCacheKey.java:86-87 | `String.hashCode` as the wrapping loop over code units equals the polynomial `s[0]*31^(n-1)+...+s[n-1]` reduced to 32 bits |
| JavaStrings.EncodeChar | lucene-directory/src/main/java/org/infinispan/lucene/ChunkCacheKey.java:117 | a character of a string literal is one code unit equal to it when it lies in the Basic Multilingual Plane, and otherwise a high surrogate followed by a low surrogate that together decode back to it |
| JavaStrings.Equals | lucene-directory/src/main/java/org/infinispan/lucene/ChunkCacheKey.java:105 | `s.equals(other)` is true exactly when `other` is non-null and has the same code units |
| JavaStrings.ValueOf | lucene-directory/src/main/java/org/infinispan/lucene/ChunkCacheKey.java:117 | string concatenation renders a name as the four letters `null` exactly when the name is `null` or is itself the string `"null"` |
| JavaStrings.ValueOfCollision | lucene-directory/src/main/java/org/infinispan/lucene/ChunkCacheKey.java:117 | two name references render alike exactly when they are equal, or one is `null` and the other is the string `"null"` |
| JavaDecimal.ParseToDecimal | lucene-directory/src/main/java/org/infinispan/lucene/ChunkCacheKey.java:117 | reading back the decimal text that `Integer.toString` writes gives the same int, for every int including negative ones |
| JavaDecimal.ToDecimalInjective | lucene-directory/src/main/java/org/infinispan/lucene/ChunkCacheKey.java:117 | two different ints never render to the same text |
| JavaDecimal.ToDecimal | lucene-directory/src/main/java/org/infinispan/lucene/ChunkCacheKey.java:117 | `Integer.toString` of the chunk id is non-empty, starts with `-` exactly for negative values, renders 0 as `0`, and has no other leading zero |
| JavaDecimal.ReadBackDecimal | lucene-directory/src/main/java/org/infinispan/lucene/ChunkCacheKey.java:117 | a rendered int followed by any text that does not start with a digit can be read back from the front of the text |
| ChunkCacheKeys.GeneratedHashCode | lucene-directory/src/main/java/org/infinispan/lucene/ChunkCacheKey.java:82-89 | the hash folded step by step from 1 (chunkId, then fileName, then indexName, each `31*result + x` in int arithmetic, null names contributing 0) equals `31^3 + 31^2*chunkId + 31*poly(fileName) + poly(indexName)` reduced once to 32 bits |
| ChunkCacheKeys.HashFormula | lucene-directory/src/main/java/org/infinispan/lucene/ChunkCacheKey.java:83-88 | the three wrapping steps with prime 31 and start value 1 give the closed formula reduced modulo 2^32 |
| ChunkCacheKeys.FoldFormula | lucene-directory/src/main/java/org/infinispan/lucene/ChunkCacheKey.java:84-87 | for any exact name contributions, the three wrapping steps starting from 1 equal `31^3 + 31^2*chunkId + 31*f + i` reduced once to 32 bits |
| ChunkCacheKeys.MulAddStepName | lucene-directory/src/main/java/org/infinispan/lucene/ChunkCacheKey.java:86-87 | folding in a name's already-wrapped hash gives the same int as folding in its exact polynomial |
| ChunkCacheKeys.NameHash | lucene-directory/src/main/java/org/infinispan/lucene/ChunkCacheKey.java:86-87 | a name contributes 0 when null and otherwise its string hash, which is its polynomial reduced to 32 bits |
| ChunkCacheKeys.New | lucene-directory/src/main/java/org/infinispan/lucene/ChunkCacheKey.java:43-75 | the constructor accepts any names (null included) and any int chunkId; the getters return exactly those arguments and the cached hash is the formula of those arguments |
| ChunkCacheKeys.HashCode | lucene-directory/src/main/java/org/infinispan/lucene/ChunkCacheKey.java:77-80 | `hashCode()` returns the value cached at construction, which for every key is the hash formula of its own fields |
| ChunkCacheKeys.NameEquals | lucene-directory/src/main/java/org/infinispan/lucene/ChunkCacheKey.java:102-111 | the null-aware comparison of a name is true exactly when both are null or both are equal strings |
| ChunkCacheKeys.Equals | lucene-directory/src/main/java/org/infinispan/lucene/ChunkCacheKey.java:92-113 | `equals` is false for null and for any other class, and for a key it is true exactly when chunkId, fileName and indexName agree by value |
| ChunkCacheKeys.CompareFields | lucene-directory/src/main/java/org/infinispan/lucene/ChunkCacheKey.java:95-112 | the class and field checks reject null and other classes and accept a key exactly when its three fields agree |
| ChunkCacheKeys.IdentityIsShortcut | lucene-directory/src/main/java/org/infinispan/lucene/ChunkCacheKey.java:93-94 | the same-instance check never changes the answer of `equals` |
| ChunkCacheKeys.ToString | lucene-directory/src/main/java/org/infinispan/lucene/ChunkCacheKey.java:116-118 | the rendering starts with `ChunkCacheKey{chunkId=`, ends with `} ` including the trailing space, and the chunk id can be read back right after the label |
| ChunkCacheKeys.NamesPart | lucene-directory/src/main/java/org/infinispan/lucene/ChunkCacheKey.java:117 | the text after the chunk id is exactly `, fileName=`, the rendered file name and `, indexName=`, followed by the rendered index name and `} `, with nothing between or overlapping; it does not begin with a digit, so it cannot extend the number |
| ChunkCacheKeys.ChunkIdReadsBack | lucene-directory/src/main/java/org/infinispan/lucene/ChunkCacheKey.java:117 | whatever text precedes it, a chunk id rendered in decimal and followed by text that does not start with a digit (as `, fileName=` does not) can be read back from right after that text |
| ChunkCacheKeyLaws.EqualsReflexive | lucene-directory/src/main/java/org/infinispan/lucene/ChunkCacheKey.java:93-94 | every key equals itself |
| ChunkCacheKeyLaws.EqualsSymmetric | lucene-directory/src/main/java/org/infinispan/lucene/ChunkCacheKey.java:99-112 | `a.equals(b)` and `b.equals(a)` always agree |
| ChunkCacheKeyLaws.EqualsTransitive | lucene-directory/src/main/java/org/infinispan/lucene/ChunkCacheKey.java:99-112 | `a.equals(b)` and `b.equals(c)` imply `a.equals(c)` |
| ChunkCacheKeyLaws.EqualsIsEquivalence | lucene-directory/src/main/java/org/infinispan/lucene/ChunkCacheKey.java:92-113 | `equals` restricted to keys is reflexive, symmetric and transitive |
| ChunkCacheKeyLaws.EqualsRejectsNonKeys | lucene-directory/src/main/java/org/infinispan/lucene/ChunkCacheKey.java:95-98 | `equals` is false for null and for an object of any other class |
| ChunkCacheKeyLaws.EqualsIffSameValue | lucene-directory/src/main/java/org/infinispan/lucene/ChunkCacheKey.java:99-112 | two keys are `equals` exactly when they are the same value, cached hash included |
| ChunkCacheKeyLaws.EqualKeysHaveEqualHashes | lucene-directory/src/main/java/org/infinispan/lucene/ChunkCacheKey.java:77-112 | keys that are `equals` have the same `hashCode()` |
| ChunkCacheKeyLaws.NewEqualsIffSameArguments | lucene-directory/src/main/java/org/infinispan/lucene/ChunkCacheKey.java:43-48 | two constructed keys are `equals` exactly when they were given the same three arguments |
| ChunkCacheKeyLaws.HashExampleSmall | lucene-directory/src/main/java/org/infinispan/lucene/ChunkCacheKey.java:82-89 | with names `"a"`/`"b"` and chunk 1 the hash is 33857 or 33887 depending on which name is the file, so the field order matters |
| ChunkCacheKeyLaws.EqualsExamples | lucene-directory/src/main/java/org/infinispan/lucene/ChunkCacheKey.java:99-112 | equal arguments give equal keys; a different chunk id or index name gives unequal keys |
| ChunkCacheKeyLaws.ToStringExample | lucene-directory/src/main/java/org/infinispan/lucene/ChunkCacheKey.java:116-118 | `("idx1", "file.txt", 2)` renders as `ChunkCacheKey{chunkId=2, fileName=file.txt, indexName=idx1} ` |
| ChunkCacheKeyLaws.ToStringNullExample | lucene-directory/src/main/java/org/infinispan/lucene/ChunkCacheKey.java:116-118 | null names render as `null` and a negative chunk id keeps its sign |

## Left out

- `Serializable` and `serialVersionUID`: the class declares `Serializable` (ChunkCacheKey.java:33) with a `serialVersionUID` (line 36), and `hashCode` is a non-transient `final` field (line 41), so default deserialization restores the cached hash from the stream without running the constructor. Deserialization is not modelled. The subset type `ChunkCacheKeys.ChunkCacheKey` assumes the invariant for every key. That holds for keys built by the constructor, and for keys read back from a stream such a key wrote, because `String.hashCode` is fixed by its documentation. A hand-crafted stream could carry a different hash, and the model says nothing about such a key.
- Reference identity as its own notion: keys are values here, so `this == obj` is modelled as the argument being this very key value. `IdentityIsShortcut` shows that this fast path never changes the result.
- Immutability and thread safety: every field is `final` and the model is a value, so there is nothing to model.
- The JDK caches `String.hashCode` inside each string. That caching is invisible to the key and is not modelled; only the value it returns is.
- `GetChunkId`, `GetIndexName`, `GetFileName`: the getters carry no contract of their own. What they return is stated in the contract of `New`.
- ChunkCacheKeys.ToString: the contract pins down the label, the trailing `} ` and the chunk id. It does not pin down the two names, because a name may itself contain `, indexName=`, which makes the rendering ambiguous to read back. `ChunkCacheKeys.NamesPart` states the exact text after the chunk id, and the concrete examples show the full text.
- `JavaDecimal.ParseDecimal`, the partner reader, accepts leading zeros. It is not a Java method; only its agreement with `Integer.toString` is claimed.

