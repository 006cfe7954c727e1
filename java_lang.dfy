/**
  The few pieces of the Java platform the plugin relies on, with Java's own
  semantics written out: 32-bit and 64-bit integers, narrowing casts that
  wrap around, integer division that truncates toward zero, and the
  `String` operations `toLowerCase`, `trim`, `startsWith`, `contains`,
  plus `Integer.parseInt` and its inverse `Integer.toString`.
 */
module JavaLang {
  import opened Wrappers

  /** Java `int` */
  type Int32 = x: int | -0x8000_0000 <= x < 0x8000_0000

  /** Java `long` */
  type Int64 = x: int | -0x8000_0000_0000_0000 <= x < 0x8000_0000_0000_0000

  /** The range of `Int32`, as a predicate on any integer (the type's constraint is written out so the verifier sees its bounds directly). */
  predicate InInt32Range(x: int) {
    -0x8000_0000 <= x < 0x8000_0000
  }

  /** Narrowing to `int`: the low 32 bits, read as two's complement (a `(int)` cast, or `int` overflow). */
  function Wrap32(x: int): (r: Int32)
    ensures (r - x) % 0x1_0000_0000 == 0
    ensures InInt32Range(x) ==> r == x
  {
    (x + 0x8000_0000) % 0x1_0000_0000 - 0x8000_0000
  }

  /** Java's integer `/` by a positive divisor: the quotient is truncated toward zero. */
  function TruncDiv(a: int, b: int): (q: int)
    requires b > 0
    ensures 0 <= a ==> 0 <= q * b <= a < q * b + b
    ensures a < 0 ==> q * b - b < a <= q * b <= 0
  {
    if a >= 0 then
      DivisionBounds(a, b);
      a / b
    else
      DivisionBounds(-a, b);
      -((-a) / b)
  }

  lemma DivisionBounds(a: nat, b: int)
    requires b > 0
    ensures 0 <= (a / b) * b <= a < (a / b) * b + b
  {
  }

  // ---------------------------------------------------------------- characters and strings

  predicate IsUpper(c: char) {
    'A' <= c <= 'Z'
  }

  /** Lower-case mapping of one character (only the ASCII letters change). */
  function LowerChar(c: char): (d: char)
    ensures !IsUpper(d)
    ensures IsUpper(c) ==> d as int == c as int + 32
    ensures !IsUpper(c) ==> d == c
  {
    if IsUpper(c) then (c as int + 32) as char else c
  }

  /** `String.toLowerCase()` */
  function ToLower(s: string): string {
    seq(|s|, i requires 0 <= i < |s| => LowerChar(s[i]))
  }

  /** Lower-casing keeps the length, leaves no upper-case letter, and changes nothing a second time. */
  lemma LowerCaseIdempotent(s: string)
    ensures |ToLower(s)| == |s|
    ensures forall i :: 0 <= i < |s| ==> !IsUpper(ToLower(s)[i])
    ensures ToLower(ToLower(s)) == ToLower(s)
  {
  }

  /** A string without upper-case letters is its own lower case. */
  lemma LowerCaseUnchanged(s: string)
    requires forall i :: 0 <= i < |s| ==> !IsUpper(s[i])
    ensures ToLower(s) == s
  {
  }

  predicate IsTrimmed(c: char) {
    c <= ' '
  }

  /**
    `String.trim()`: the characters at or below the space, U+0020, are removed
    from both ends (removing the trailing ones first gives the same result).
   */
  function Trim(s: string): (r: string)
    ensures |r| <= |s|
    ensures r != [] ==> !IsTrimmed(r[0]) && !IsTrimmed(r[|r| - 1])
    ensures s != [] && !IsTrimmed(s[0]) && !IsTrimmed(s[|s| - 1]) ==> r == s
    decreases |s|
  {
    if s != [] && IsTrimmed(s[0]) then Trim(s[1..])
    else if s != [] && IsTrimmed(s[|s| - 1]) then Trim(s[..|s| - 1])
    else s
  }

  /** Everything before `a` and from `b` on is at or below the space. */
  predicate TrimmedOutside(s: string, a: int, b: int) {
    0 <= a <= b <= |s| &&
    (forall i :: 0 <= i < a ==> IsTrimmed(s[i])) &&
    (forall i :: b <= i < |s| ==> IsTrimmed(s[i]))
  }

  /**
    What `trim` keeps is the slice between leading and trailing characters
    at or below the space; with the ends of `Trim`'s contract this pins the
    slice.
   */
  lemma {:induction false} TrimSlice(s: string)
    ensures exists a, b :: TrimmedOutside(s, a, b) && Trim(s) == s[a..b]
    decreases |s|
  {
    if s != [] && IsTrimmed(s[0]) {
      var t := s[1..];
      TrimSlice(t);
      var a, b :| TrimmedOutside(t, a, b) && Trim(t) == t[a..b];
      ShiftTrimmedOutside(s, a, b);
      assert t[a..b] == s[a + 1..b + 1];
    } else if s != [] && IsTrimmed(s[|s| - 1]) {
      var t := s[..|s| - 1];
      TrimSlice(t);
      var a, b :| TrimmedOutside(t, a, b) && Trim(t) == t[a..b];
      assert t[a..b] == s[a..b];
      ExtendTrimmedOutside(s, a, b);
    } else {
      assert TrimmedOutside(s, 0, |s|) && Trim(s) == s[0..|s|];
    }
  }

  lemma ExtendTrimmedOutside(s: string, a: int, b: int)
    requires s != [] && IsTrimmed(s[|s| - 1]) && TrimmedOutside(s[..|s| - 1], a, b)
    ensures TrimmedOutside(s, a, b)
  {
    assert forall i :: 0 <= i < |s| - 1 ==> s[i] == s[..|s| - 1][i];
  }

  lemma ShiftTrimmedOutside(s: string, a: int, b: int)
    requires s != [] && IsTrimmed(s[0]) && TrimmedOutside(s[1..], a, b)
    ensures TrimmedOutside(s, a + 1, b + 1)
  {
    assert forall i :: 1 <= i < |s| ==> s[i] == s[1..][i - 1];
  }

  /** `String.startsWith(prefix)` */
  predicate StartsWith(s: string, prefix: string) {
    |prefix| <= |s| && s[..|prefix|] == prefix
  }

  predicate OccursAt(s: string, t: string, i: int) {
    0 <= i && i + |t| <= |s| && s[i..i + |t|] == t
  }

  /** `String.contains(t)`: `t` occurs somewhere in `s`. */
  function Contains(s: string, t: string): (r: bool)
    ensures r <==> exists i :: OccursAt(s, t, i)
    decreases |s|
  {
    if StartsWith(s, t) then
      assert OccursAt(s, t, 0);
      true
    else if s == [] then
      false
    else
      assert forall i :: OccursAt(s[1..], t, i) <==> OccursAt(s, t, i + 1) by {
        forall i ensures OccursAt(s[1..], t, i) <==> OccursAt(s, t, i + 1) {
          if 0 <= i && i + |t| <= |s| - 1 {
            assert s[1..][i..i + |t|] == s[i + 1..i + 1 + |t|];
          }
        }
      }
      assert !OccursAt(s, t, 0);
      assert forall i :: OccursAt(s, t, i) ==> i == 0 || OccursAt(s[1..], t, i - 1);
      Contains(s[1..], t)
  }

  // ---------------------------------------------------------------- Integer.parseInt / toString

  predicate IsDigit(c: char) {
    '0' <= c <= '9'
  }

  predicate AllDigits(s: string) {
    forall i :: 0 <= i < |s| ==> IsDigit(s[i])
  }

  /** The value of a run of decimal digits, most significant first. */
  function DigitsValue(s: string): nat
    requires AllDigits(s)
    decreases |s|
  {
    if s == [] then 0 else DigitsValue(s[..|s| - 1]) * 10 + (s[|s| - 1] as int - '0' as int)
  }

  /**
    `Integer.parseInt(s)` (radix 10): an optional `-` or `+`, then at least one
    digit, with a value that fits an `int`; anything else is a
    NumberFormatException, here `None`.
   */
  function ParseInt(s: string): (r: Option<Int32>)
    ensures s == [] ==> r == None
    ensures r.Some? ==> |s| > 0 && forall i :: 0 < i < |s| ==> IsDigit(s[i])
    ensures r.Some? && !IsDigit(s[0]) ==> |s| >= 2 && (s[0] == '-' || s[0] == '+')
    ensures r.Some? && s[0] == '-' ==> r.value <= 0
    ensures r.Some? && s[0] != '-' ==> r.value >= 0
    // the value: unsigned, with a plus sign, with a minus sign
    ensures s != [] && AllDigits(s) ==>
      r == if DigitsValue(s) < 0x8000_0000 then Some(DigitsValue(s)) else None
    ensures |s| >= 2 && s[0] == '+' && AllDigits(s[1..]) ==>
      r == if DigitsValue(s[1..]) < 0x8000_0000 then Some(DigitsValue(s[1..])) else None
    ensures |s| >= 2 && s[0] == '-' && AllDigits(s[1..]) ==>
      r == if DigitsValue(s[1..]) <= 0x8000_0000 then Some(0 - DigitsValue(s[1..])) else None
  {
    if s == [] then None
    else
      var digits := if s[0] == '-' || s[0] == '+' then s[1..] else s;
      if digits == [] || !AllDigits(digits) then None
      else
        var v: int := if s[0] == '-' then 0 - DigitsValue(digits) else DigitsValue(digits);
        if InInt32Range(v) then Some(v) else None
  }

  function DigitChar(d: int): (c: char)
    requires 0 <= d < 10
    ensures IsDigit(c) && c as int - '0' as int == d
  {
    ('0' as int + d) as char
  }

  /** The decimal digits of a natural number, without leading zeros. */
  function NatDigits(n: nat): (s: string)
    ensures s != [] && AllDigits(s)
    ensures s[0] != '-' && s[0] != '+'
    decreases n
  {
    if n < 10 then [DigitChar(n)] else NatDigits(n / 10) + [DigitChar(n % 10)]
  }

  /** `Integer.toString(n)` */
  function Decimal(n: Int32): string {
    if n < 0 then "-" + NatDigits(-(n as int)) else NatDigits(n)
  }

  lemma {:induction false} NatDigitsValue(n: nat)
    ensures DigitsValue(NatDigits(n)) == n
    decreases n
  {
    if n >= 10 {
      var s := NatDigits(n);
      assert s[..|s| - 1] == NatDigits(n / 10);
      NatDigitsValue(n / 10);
    }
  }

  /** `Integer.parseInt` reads back what `Integer.toString` writes. */
  lemma ParseDecimal(n: Int32)
    ensures ParseInt(Decimal(n)) == Some(n)
  {
    NatDigitsValue(if n < 0 then -(n as int) else n);
    if n < 0 {
      assert Decimal(n)[1..] == NatDigits(-(n as int));
    }
  }
}
