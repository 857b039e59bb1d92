/** `ChunkCacheKey`: the immutable key `(indexName, fileName, chunkId)`
    under which one fixed-size chunk of a Lucene index file is stored in an
    Infinispan cache. Its hash is computed once, when the key is built, and
    its equality compares the three fields by value. */
module ChunkCacheKeys {
  import opened JavaInt
  import opened JavaStrings
  import opened JavaDecimal

  /** Java's `final int prime = 31`. */
  const PRIME: Int32 := 31

  /** The private fields of a key, in declaration order. `hashCode` is the
      cached hash. */
  datatype KeyFields = KeyFields(
    chunkId: Int32,
    indexName: NullableString,
    fileName: NullableString,
    hashCode: Int32)

  /** `generatedHashCode()`, step by step as written: start from 1 and fold
      in chunkId, then fileName, then indexName with `31*result + field` in
      `int` arithmetic, a `null` name contributing 0. */
  function GeneratedHashCode(chunkId: Int32, fileName: NullableString, indexName: NullableString): (h: Int32)
    ensures h == ReferenceHash(chunkId, fileName, indexName)
  {
    var result: Int32 := 1;
    var result := Add(Mul(PRIME, result), chunkId);
    var result := Add(Mul(PRIME, result), NameHash(fileName));
    var result := Add(Mul(PRIME, result), NameHash(indexName));
    HashFormula(chunkId, fileName, indexName);
    result
  }

  /** The hash contribution of a name: 0 for `null`, else `String.hashCode`. */
  function NameHash(name: NullableString): (h: Int32)
    ensures h == Wrap(NamePoly(name))
  {
    match name
    case None => 0
    case Some(s) => JavaStrings.HashCode(s)
  }

  /** The exact (unreduced) polynomial of a name; 0 for `null`. */
  function NamePoly(name: NullableString): int {
    match name
    case None => 0
    case Some(s) => Poly(s)
  }

  /** The hash of a key as one closed formula: the exact integer
      `31^3 + 31^2*chunkId + 31*poly(fileName) + poly(indexName)` reduced
      once to 32 bits. This is the independent reference that
      `GeneratedHashCode` is proved to compute. */
  function ReferenceHash(chunkId: Int32, fileName: NullableString, indexName: NullableString): Int32 {
    Wrap(31 * 31 * 31 + 31 * 31 * chunkId + 31 * NamePoly(fileName) + NamePoly(indexName))
  }

  /** Reducing after every `*` and `+`, as Java does, gives the same value
      as reducing the exact formula once. */
  lemma HashFormula(chunkId: Int32, fileName: NullableString, indexName: NullableString)
    ensures Add(Mul(PRIME, Add(Mul(PRIME, Add(Mul(PRIME, 1), chunkId)), NameHash(fileName))), NameHash(indexName))
         == ReferenceHash(chunkId, fileName, indexName)
  {
    FoldFormula(chunkId, NamePoly(fileName), NamePoly(indexName));
  }

  /** The three steps of `generatedHashCode()` on exact contributions `f`
      and `i` whose hashes are already wrapped. */
  lemma {:induction false} FoldFormula(chunkId: Int32, f: int, i: int)
    ensures Add(Mul(PRIME, Add(Mul(PRIME, Add(Mul(PRIME, 1), chunkId)), Wrap(f))), Wrap(i))
         == Wrap(31 * 31 * 31 + 31 * 31 * chunkId + 31 * f + i)
  {
    var p1 := 31 + chunkId;
    var p2 := 31 * p1 + f;
    var r1 := Add(Mul(PRIME, 1), chunkId);
    assert r1 == Wrap(p1) by {
      assert Mul(PRIME, 1) == 31;
    }
    MulAddStepName(p1, f);
    var r2 := Add(Mul(PRIME, r1), Wrap(f));
    assert r2 == Wrap(p2);
    MulAddStepName(p2, i);
    assert 31 * p2 + i == 31 * 31 * 31 + 31 * 31 * chunkId + 31 * f + i;
  }

  /** One step `31*result + nameHash` of `generatedHashCode()`, where the
      name's hash is itself already reduced to 32 bits. */
  lemma {:induction false} MulAddStepName(p: int, q: int)
    ensures Add(Mul(PRIME, Wrap(p)), Wrap(q)) == Wrap(31 * p + q)
  {
    MulAddStep(PRIME, p, Wrap(q));
    CongruentSym(q, Wrap(q));
    CongruentShift(Wrap(q), q, 31 * p);
    assert Congruent(31 * p + Wrap(q), 31 * p + q);
    WrapCongruent(31 * p + Wrap(q), 31 * p + q);
  }

  /** The class invariant: the cached hash is the generated one. The
      constructor establishes it. Default deserialization also restores
      the field from the stream without running the constructor; the model
      takes the invariant for every key, which holds for keys read back
      from a stream that a constructed key wrote. */
  type ChunkCacheKey = k: KeyFields | k.hashCode == GeneratedHashCode(k.chunkId, k.fileName, k.indexName)
    witness KeyFields(0, None, None, 29791)

  /** The argument of `equals(Object)`: a `null` reference, a key, or an
      instance of any other class. A class from another class loader that
      happens to share the key's name is such an other class too. */
  datatype JavaObject =
    | Null
    | KeyObject(key: ChunkCacheKey)
    | OtherObject(runtimeClass: string)

  /** `new ChunkCacheKey(indexName, fileName, chunkId)`: stores its
      arguments as given, checks nothing, and caches the hash. */
  function New(indexName: NullableString, fileName: NullableString, chunkId: Int32): (k: ChunkCacheKey)
    ensures GetIndexName(k) == indexName
    ensures GetFileName(k) == fileName
    ensures GetChunkId(k) == chunkId
    ensures HashCode(k) == ReferenceHash(chunkId, fileName, indexName)
  {
    KeyFields(chunkId, indexName, fileName, GeneratedHashCode(chunkId, fileName, indexName))
  }

  function GetChunkId(k: ChunkCacheKey): Int32 {
    k.chunkId
  }

  function GetIndexName(k: ChunkCacheKey): NullableString {
    k.indexName
  }

  function GetFileName(k: ChunkCacheKey): NullableString {
    k.fileName
  }

  /** `hashCode()`: returns the cached value, which is the formula of the
      key's own fields. */
  function HashCode(k: ChunkCacheKey): (h: Int32)
    ensures h == ReferenceHash(k.chunkId, k.fileName, k.indexName)
  {
    k.hashCode
  }

  /** The null-aware comparison of one name field: both `null`, or the
      first non-null and `equals` to the second. */
  function NameEquals(mine: NullableString, theirs: NullableString): (r: bool)
    ensures r <==> mine == theirs
  {
    if mine.None? then theirs.None?
    else JavaStrings.Equals(mine.value, theirs)
  }

  /** The three identifying fields agree by value. */
  predicate SameFields(a: ChunkCacheKey, b: ChunkCacheKey) {
    && a.chunkId == b.chunkId
    && a.fileName == b.fileName
    && a.indexName == b.indexName
  }

  /** `equals(Object)`: the same instance is equal at once; every other
      argument goes through the class and field checks. */
  function Equals(self: ChunkCacheKey, obj: JavaObject): (r: bool)
    ensures obj.Null? ==> !r
    ensures obj.OtherObject? ==> !r
    ensures obj.KeyObject? ==> (r <==> SameFields(self, obj.key))
  {
    if obj == KeyObject(self) then true else CompareFields(self, obj)
  }

  /** The rest of `equals(Object)`, branch by branch: `null` and any other
      class are not equal; otherwise chunkId, fileName and indexName are
      compared in that order, the names null-aware. */
  function CompareFields(self: ChunkCacheKey, obj: JavaObject): (r: bool)
    ensures obj.Null? ==> !r
    ensures obj.OtherObject? ==> !r
    ensures obj.KeyObject? ==> (r <==> SameFields(self, obj.key))
  {
    if obj.Null? then false
    else if !obj.KeyObject? then false
    else
      var other := obj.key;
      if self.chunkId != other.chunkId then false
      else if !NameEquals(self.fileName, other.fileName) then false
      else if !NameEquals(self.indexName, other.indexName) then false
      else true
  }

  /** The identity check is only a shortcut: without it, `equals` would
      give the same answer for every argument. */
  lemma IdentityIsShortcut(self: ChunkCacheKey, obj: JavaObject)
    ensures Equals(self, obj) == CompareFields(self, obj)
  {
  }

  /** `toString()`:
      `ChunkCacheKey{chunkId=<id>, fileName=<name>, indexName=<name>} `.
      It starts with the label, ends with the closing brace and a space,
      and the chunk id can be read back from right after the label. */
  function ToString(k: ChunkCacheKey): (r: JString)
    ensures Utf16(CHUNK_ID_LABEL) <= r
    ensures EndsWith(r, Utf16(CLOSING))
    ensures ParseDecimal(NumberAfter(r, Utf16(CHUNK_ID_LABEL))) == Some(k.chunkId)
  {
    var head := Utf16(CHUNK_ID_LABEL);
    var tail := NamesPart(k.fileName, k.indexName);
    ChunkIdReadsBack(head, k.chunkId, tail);
    EndsWithAppend(head + ToDecimal(k.chunkId), tail, Utf16(CLOSING));
    head + ToDecimal(k.chunkId) + tail
  }

  /** What `toString()` appends after the chunk id: the file-name part
      at the front and the index-name part at the end, and nothing else,
      since the length is exactly that of the two parts. */
  function NamesPart(fileName: NullableString, indexName: NullableString): (r: JString)
    ensures |r| > 0 && !IsDigit(r[0])
    ensures Utf16(", fileName=") + ValueOf(fileName) + Utf16(", indexName=") <= r
    ensures EndsWith(r, ValueOf(indexName) + Utf16(CLOSING))
    ensures |r| == |Utf16(", fileName=") + ValueOf(fileName) + Utf16(", indexName=")|
                 + |ValueOf(indexName) + Utf16(CLOSING)|
    ensures EndsWith(r, Utf16(CLOSING))
  {
    var a, b, c := Utf16(", fileName="), ValueOf(fileName), Utf16(", indexName=");
    var d, e := ValueOf(indexName), Utf16(CLOSING);
    assert a[0] == 0x2C;
    FiveParts(a, b, c, d, e);
    a + b + c + d + e
  }

  /** Where the parts of a five-part concatenation sit in it. */
  lemma FiveParts(a: JString, b: JString, c: JString, d: JString, e: JString)
    requires |a| > 0
    ensures (a + b + c + d + e)[0] == a[0]
    ensures a + b + c <= a + b + c + d + e
    ensures EndsWith(a + b + c + d + e, d + e)
    ensures EndsWith(a + b + c + d + e, e)
  {
  }

  const CHUNK_ID_LABEL: string := "ChunkCacheKey{chunkId="
  const CLOSING: string := "} "

  /** The number a reader finds in `r` right after `prefix`. */
  function NumberAfter(r: JString, prefix: JString): JString {
    if prefix <= r then LeadingNumber(r[|prefix|..]) else []
  }

  lemma ChunkIdReadsBack(head: JString, id: Int32, tail: JString)
    requires |tail| == 0 || !IsDigit(tail[0])
    ensures ParseDecimal(NumberAfter(head + ToDecimal(id) + tail, head)) == Some(id)
  {
    assert (head + ToDecimal(id) + tail)[|head|..] == ToDecimal(id) + tail;
    ReadBackDecimal(id, tail);
  }
}
