/** Untyped values (Kotlin `Any?`) as they appear in error bodies and JSON output. */
module Values {
  import opened Wrappers

  /** A `java.time.LocalDateTime`, kept as its calendar fields; no calendar arithmetic is modelled. */
  datatype LocalDateTime = LocalDateTime(year: int, month: int, day: int, hour: int, minute: int, second: int)

  /** A value of type `Any?`: the shapes that error bodies and serialised DTOs carry. */
  datatype Value =
    | Null
    | Str(s: string)
    | Int(i: int)
    | Bool(b: bool)
    | DateTime(t: LocalDateTime)
    | Array(items: seq<Value>)
    | Object(fields: map<string, Value>)

  /** A nullable string as a value: `null` stays `null`. */
  function OfNullableString(s: Option<string>): (v: Value)
    ensures v == Null <==> s.None?
    ensures s.Some? ==> v == Str(s.value)
  {
    match s
    case None => Null
    case Some(x) => Str(x)
  }

  function DigitChar(d: nat): (c: char)
    requires d < 10
    ensures '0' <= c <= '9'
  {
    "0123456789"[d]
  }

  /** Decimal rendering of a natural number, as Kotlin's string templates print it. */
  function NatToString(n: nat): (s: string)
    ensures 1 <= |s|
    decreases n
  {
    if n < 10 then [DigitChar(n)] else NatToString(n / 10) + [DigitChar(n % 10)]
  }

  /** Decimal rendering of an integer, with a leading `-` when negative. */
  function IntToString(i: int): (s: string)
    ensures 1 <= |s|
  {
    if i < 0 then "-" + NatToString(-i) else NatToString(i)
  }

  /** Kotlin's `startsWith`. */
  predicate StartsWith(s: string, prefix: string) {
    prefix <= s
  }

  /** Kotlin's `endsWith`. */
  predicate EndsWith(s: string, suffix: string) {
    |suffix| <= |s| && s[|s| - |suffix|..] == suffix
  }

  /** Kotlin's `contains` on strings: `sub` occurs somewhere in `s`. */
  predicate Contains(s: string, sub: string) {
    exists k: nat | k <= |s| :: OccursAt(s, sub, k)
  }

  /** `sub` occurs in `s` starting at position `k`. */
  predicate OccursAt(s: string, sub: string, k: nat) {
    k + |sub| <= |s| && s[k..k + |sub|] == sub
  }
}
