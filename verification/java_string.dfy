/** The parts of `java.lang.String` that a cache key relies on: a string is
    a sequence of UTF-16 code units, a reference to one may be `null`,
    `hashCode()` is the base-31 polynomial of its code units in `int`
    arithmetic, and `equals` compares code units one by one. */
module JavaStrings {
  import opened JavaInt

  datatype Option<+T> = None | Some(value: T)

  /** One UTF-16 code unit, Java's `char`. */
  type CodeUnit = c: int | 0 <= c < 0x1_0000

  /** The contents of a `java.lang.String`. */
  type JString = seq<CodeUnit>

  /** A `String` reference: `None` is Java's `null`. */
  type NullableString = Option<JString>

  /** The UTF-16 encoding of one Unicode scalar value, as the Java compiler
      stores a character of a string literal. */
  function EncodeChar(c: char): (r: JString)
    ensures 1 <= |r| <= 2
    ensures c as int < 0x1_0000 <==> |r| == 1
    ensures |r| == 1 ==> r[0] == c as int
    ensures |r| == 2 ==> 0xD800 <= r[0] < 0xDC00 && 0xDC00 <= r[1] < 0xE000
    ensures |r| == 2 ==> 0x1_0000 + (r[0] as int - 0xD800) * 0x400 + (r[1] as int - 0xDC00) == c as int
  {
    var v := c as int;
    if v < 0x1_0000 then [v]
    else
      var w := v - 0x1_0000;
      [0xD800 + w / 0x400, 0xDC00 + w % 0x400]
  }

  /** The Java string denoted by the literal `s`. */
  function Utf16(s: string): (r: JString)
    ensures |r| >= |s|
  {
    if |s| == 0 then [] else EncodeChar(s[0]) + Utf16(s[1..])
  }

  /** 31 to the power n. */
  function Pow31(n: nat): (r: nat)
    ensures r >= 1
  {
    if n == 0 then 1 else 31 * Pow31(n - 1)
  }

  /** The exact value `s[0]*31^(n-1) + s[1]*31^(n-2) + ... + s[n-1]` that
      the documentation of `String.hashCode` gives, before any reduction to
      32 bits. */
  function Poly(s: JString): int {
    if |s| == 0 then 0 else s[0] * Pow31(|s| - 1) + Poly(s[1..])
  }

  /** Appending one code unit multiplies the polynomial by 31 and adds the
      unit: the polynomial is what a left-to-right Horner loop computes. */
  lemma {:induction false} PolySnoc(s: JString, c: CodeUnit)
    ensures Poly(s + [c]) == 31 * Poly(s) + c
    decreases |s|
  {
    if |s| == 0 {
      assert [] + [c] == [c];
      assert [c][1..] == [];
    } else {
      var t := s + [c];
      assert t[1..] == s[1..] + [c];
      PolySnoc(s[1..], c);
      assert Pow31(|t| - 1) == 31 * Pow31(|s| - 1);
      assert s[0] * (31 * Pow31(|s| - 1)) == 31 * (s[0] * Pow31(|s| - 1));
    }
  }

  /** `String.hashCode()`: the loop `h = 31*h + value[i]` over the code
      units, in `int` arithmetic, starting from 0. */
  function HashCode(s: JString): (h: Int32)
    ensures h == Wrap(Poly(s))
    decreases |s|
  {
    if |s| == 0 then 0
    else
      var init, last := s[..|s| - 1], s[|s| - 1];
      var h0 := HashCode(init);
      assert s == init + [last];
      PolySnoc(init, last);
      MulAddStep(31, Poly(init), last);
      Add(Mul(31, h0), last)
  }

  /** `s[i..]` and `t[i..]` agree, compared code unit by code unit as the
      loop inside `String.equals` does. */
  function SameUnitsFrom(s: JString, t: JString, i: nat): (r: bool)
    requires |s| == |t| && i <= |s|
    ensures r <==> s[i..] == t[i..]
    decreases |s| - i
  {
    if i == |s| then true
    else
      assert s[i..] == [s[i]] + s[i + 1..];
      assert t[i..] == [t[i]] + t[i + 1..];
      s[i] == t[i] && SameUnitsFrom(s, t, i + 1)
  }

  /** `s.equals(other)` for a non-null `s` and a `String` argument that
      may be `null`: false for `null`, otherwise equal lengths and equal
      code units. */
  function Equals(s: JString, other: NullableString): (r: bool)
    ensures r <==> other == Some(s)
  {
    match other
    case None => false
    case Some(t) => |s| == |t| && SameUnitsFrom(s, t, 0)
  }

  /** `String.valueOf(s)`, which string concatenation applies to a
      `String` operand: a `null` reference renders as the four letters
      `null`. */
  function ValueOf(s: NullableString): (r: JString)
    ensures r == Utf16("null") <==> s == None || s == Some(Utf16("null"))
  {
    match s
    case None => Utf16("null")
    case Some(t) => t
  }

  /** The rendering loses exactly one distinction: a `null` reference and
      the string `"null"` print alike, and any other two references print
      alike only when they are equal. */
  lemma ValueOfCollision(s: NullableString, t: NullableString)
    ensures ValueOf(s) == ValueOf(t)
        <==> (|| s == t
              || (s == None && t == Some(Utf16("null")))
              || (s == Some(Utf16("null")) && t == None))
  {
  }

  /** `s.endsWith(suffix)`. */
  predicate EndsWith(s: JString, suffix: JString) {
    |suffix| <= |s| && s[|s| - |suffix|..] == suffix
  }

  lemma EndsWithAppend(s: JString, t: JString, suffix: JString)
    requires EndsWith(t, suffix)
    ensures EndsWith(s + t, suffix)
  {
    assert (s + t)[|s + t| - |suffix|..] == t[|t| - |suffix|..];
  }
}
