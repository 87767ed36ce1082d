/**
 * The few java.lang.String / java.lang.Integer operations the core relies on,
 * written out with the JDK's behaviour on ASCII text.
 */
module JavaString {
  import opened Wrappers

  const INT_MIN: int := -0x8000_0000
  const INT_MAX: int := 0x7fff_ffff

  predicate IsUpper(c: char) { 'A' <= c <= 'Z' }

  function LowerChar(c: char): char {
    if IsUpper(c) then (c as int + 32) as char else c
  }

  /** String.toLowerCase, restricted to the ASCII letters; ToLowerChars states it character by character. */
  function ToLower(s: string): (r: string)
    ensures |r| == |s|
  {
    if s == [] then [] else [LowerChar(s[0])] + ToLower(s[1..])
  }

  /** Lower-casing maps each character through LowerChar and leaves no upper-case letter. */
  lemma {:induction false} ToLowerChars(s: string)
    ensures forall i :: 0 <= i < |s| ==> ToLower(s)[i] == LowerChar(s[i])
    ensures forall i :: 0 <= i < |s| ==> !IsUpper(ToLower(s)[i])
    decreases |s|
  {
    if s != [] {
      ToLowerChars(s[1..]);
    }
  }

  lemma ToLowerIdempotent(s: string)
    ensures ToLower(ToLower(s)) == ToLower(s)
  {
    ToLowerChars(s);
    ToLowerChars(ToLower(s));
  }

  /** `a.toLowerCase().equals(b)` for a lower-case `b` holds exactly when the letters match up to case. */
  predicate EqualsIgnoringCase(a: string, b: string) {
    ToLower(a) == ToLower(b)
  }

  /** String.lastIndexOf(char): -1 when absent, otherwise the last position holding `c`. */
  function LastIndexOf(s: string, c: char): (r: int)
    ensures -1 <= r < |s|
    ensures r == -1 <==> c !in s
    ensures r >= 0 ==> s[r] == c && c !in s[r + 1..]
  {
    if s == [] then -1
    else if s[|s| - 1] == c then |s| - 1
    else
      assert s == s[..|s| - 1] + [s[|s| - 1]];
      LastIndexOf(s[..|s| - 1], c)
  }

  /** Characters appended after the last `c` do not move it. */
  lemma {:induction false} LastIndexOfAppend(a: string, b: string, c: char)
    requires c !in b
    ensures LastIndexOf(a + b, c) == LastIndexOf(a, c)
    decreases |b|
  {
    if b == [] {
      assert a + b == a;
    } else {
      var b0 := b[..|b| - 1];
      assert (a + b)[..|a + b| - 1] == a + b0;
      assert b[|b| - 1] in b;
      LastIndexOfAppend(a, b0, c);
    }
  }

  /** String.trim().isEmpty(): every character is at most U+0020. */
  predicate IsBlank(s: string) {
    forall i :: 0 <= i < |s| ==> s[i] <= ' '
  }

  /** The pieces of `s` between occurrences of `sep`, keeping empty pieces. */
  function Pieces(s: string, sep: char): (r: seq<string>)
    ensures |r| >= 1
    ensures |r| == 1 <==> sep !in s
    ensures sep !in s ==> r == [s]
    ensures forall i :: 0 <= i < |r| ==> sep !in r[i]
  {
    if s == [] then [""]
    else
      var rest := Pieces(s[1..], sep);
      if s[0] == sep then [""] + rest
      else
        assert sep !in s ==> s == [s[0]] + s[1..];
        [[s[0]] + rest[0]] + rest[1..]
  }

  function StripTrailingEmpty(ps: seq<string>): (r: seq<string>)
    ensures |r| <= |ps| && r == ps[..|r|]
    ensures r == [] || r[|r| - 1] != ""
    ensures forall i :: |r| <= i < |ps| ==> ps[i] == ""
  {
    if ps == [] || ps[|ps| - 1] != "" then ps
    else StripTrailingEmpty(ps[..|ps| - 1])
  }

  /**
   * String.split with a one-character separator: the whole string when the separator does
   * not occur, otherwise the pieces with the trailing empty ones removed.
   */
  function Split(s: string, sep: char): (r: seq<string>)
    ensures sep !in s ==> r == [s]
    ensures sep in s ==> r == StripTrailingEmpty(Pieces(s, sep))
    ensures forall i :: 0 <= i < |r| ==> sep !in r[i]
  {
    if sep !in s then [s] else StripTrailingEmpty(Pieces(s, sep))
  }

  lemma {:induction false} PiecesOfJoin(a: string, b: string, sep: char)
    requires sep !in a && sep !in b
    ensures Pieces(a + [sep] + b, sep) == [a, b]
  {
    if a == [] {
      assert a + [sep] + b == [sep] + b;
      assert ([sep] + b)[1..] == b;
    } else {
      PiecesOfJoin(a[1..], b, sep);
      assert (a + [sep] + b)[1..] == a[1..] + [sep] + b;
      assert [a[0]] + a[1..] == a;
    }
  }

  /** Two non-empty separator-free words joined by one separator split back into the two words. */
  lemma SplitOfJoin(a: string, b: string, sep: char)
    requires sep !in a && sep !in b && b != ""
    ensures Split(a + [sep] + b, sep) == [a, b]
  {
    PiecesOfJoin(a, b, sep);
    assert (a + [sep] + b)[|a|] == sep;
  }

  /** A string made only of separators splits into no piece at all. */
  lemma {:induction false} SplitOfSeparatorsOnly(s: string, sep: char)
    requires s != [] && forall i :: 0 <= i < |s| ==> s[i] == sep
    ensures Split(s, sep) == []
  {
    assert s[0] == sep;
    PiecesAllEmpty(s, sep);
  }

  lemma {:induction false} PiecesAllEmpty(s: string, sep: char)
    requires forall i :: 0 <= i < |s| ==> s[i] == sep
    ensures forall i :: 0 <= i < |Pieces(s, sep)| ==> Pieces(s, sep)[i] == ""
  {
    if s != [] {
      PiecesAllEmpty(s[1..], sep);
    }
  }

  /** Character.digit(c, radix) for the ASCII digits and letters; -1 when `c` is not a digit. */
  function DigitValue(c: char, radix: nat): (d: int)
    ensures -1 <= d < radix
  {
    var v :=
      if '0' <= c <= '9' then c as int - '0' as int
      else if 'a' <= c <= 'z' then c as int - 'a' as int + 10
      else if 'A' <= c <= 'Z' then c as int - 'A' as int + 10
      else -1;
    if v < radix then v else -1
  }

  predicate AllDigits(s: string, radix: nat) {
    forall i :: 0 <= i < |s| ==> DigitValue(s[i], radix) >= 0
  }

  /** The value of a digit string, most significant digit first. */
  function DigitsValue(s: string, radix: nat): (v: nat)
    requires AllDigits(s, radix)
  {
    if s == [] then 0
    else DigitsValue(s[..|s| - 1], radix) * radix + DigitValue(s[|s| - 1], radix)
  }

  /**
   * Integer.valueOf(String) / Integer.parseInt(s, 10): an optional sign, at least one
   * digit, and a value within the 32-bit range; None is a NumberFormatException.
   */
  function ParseInt(s: string): (r: Option<int>)
    ensures r.Some? ==> INT_MIN <= r.value <= INT_MAX
    ensures s == "" ==> r == None
    ensures r.Some? && !(s[0] == '-' || s[0] == '+') ==> AllDigits(s, 10) && r.value == DigitsValue(s, 10)
    ensures r.Some? && s[0] == '-' ==> AllDigits(s[1..], 10) && r.value == 0 - DigitsValue(s[1..], 10)
    ensures r.Some? && s[0] == '+' ==> AllDigits(s[1..], 10) && r.value == DigitsValue(s[1..], 10)
    // and conversely, every digit string in range is accepted, with or without a sign
    ensures s != "" && AllDigits(s, 10) && DigitsValue(s, 10) <= INT_MAX ==> r == Some(DigitsValue(s, 10))
    ensures |s| > 1 && s[0] == '-' && AllDigits(s[1..], 10) && 0 - DigitsValue(s[1..], 10) >= INT_MIN
            ==> r == Some(0 - DigitsValue(s[1..], 10))
    ensures |s| > 1 && s[0] == '+' && AllDigits(s[1..], 10) && DigitsValue(s[1..], 10) <= INT_MAX
            ==> r == Some(DigitsValue(s[1..], 10))
  {
    if s == [] then None
    else
      var negative := s[0] == '-';
      var body := if s[0] == '-' || s[0] == '+' then s[1..] else s;
      if body == [] || !AllDigits(body, 10) then None
      else
        var digits: int := DigitsValue(body, 10);
        var v := if negative then 0 - digits else digits;
        if INT_MIN <= v <= INT_MAX then Some(v) else None
  }

  /** Java's `/` on int: the quotient rounded toward zero, so the remainder takes the sign of `a`. */
  function JavaDiv(a: int, b: int): (q: int)
    requires b > 0
    ensures 0 <= a ==> 0 <= a - q * b < b
    ensures a < 0 ==> -b < a - q * b <= 0
  {
    if a >= 0 then a / b else 0 - (0 - a) / b
  }

  /** The signed 32-bit value with the same low 32 bits as `x`. */
  function ToInt32(x: int): (r: int)
    ensures INT_MIN <= r <= INT_MAX
    ensures (r - x) % 0x1_0000_0000 == 0
  {
    var m := x % 0x1_0000_0000;
    if m > INT_MAX then m - 0x1_0000_0000 else m
  }

  /**
   * Integer.parseUnsignedInt(s, radix): a leading '-' or an empty string, a character that
   * is not a digit of the radix, and a value above 2^32-1 are NumberFormatExceptions; an
   * accepted value is returned as the signed int with the same 32 bits.
   */
  function ParseUnsignedInt(s: string, radix: nat): (r: Option<int>)
    requires 2 <= radix <= 36
    ensures s == "" || s[0] == '-' ==> r == None
    ensures r.Some? ==> INT_MIN <= r.value <= INT_MAX
  {
    if s == [] || s[0] == '-' then None
    else
      var body := if s[0] == '+' then s[1..] else s;
      if body == [] || !AllDigits(body, radix) then None
      else if DigitsValue(body, radix) > 0xffff_ffff then None
      else Some(ToInt32(DigitsValue(body, radix)))
  }

  /** An accepted unsigned parse differs from the digit value by a multiple of 2^32. */
  lemma ParseUnsignedIntValue(s: string, radix: nat)
    requires 2 <= radix <= 36
    requires s != "" && AllDigits(s, radix) && DigitsValue(s, radix) <= 0xffff_ffff
    ensures DigitValue('-', radix) == -1 && DigitValue('+', radix) == -1
    ensures ParseUnsignedInt(s, radix) == Some(ToInt32(DigitsValue(s, radix)))
  {
    assert DigitValue(s[0], radix) >= 0;
  }

  /**
   * The `(int)` cast of a double, on exact reals: rounds toward zero and saturates at the
   * bounds of int. Double rounding of the operand is not part of this model.
   */
  function IntOfDouble(x: real): (r: int)
    ensures INT_MIN <= r <= INT_MAX
    ensures 0.0 <= x < INT_MAX as real + 1.0 ==> r as real <= x < r as real + 1.0
    ensures INT_MIN as real - 1.0 < x < 0.0 ==> r as real - 1.0 < x <= r as real
    ensures x >= INT_MAX as real + 1.0 ==> r == INT_MAX
    ensures x <= INT_MIN as real - 1.0 ==> r == INT_MIN
  {
    var t := if x >= 0.0 then x.Floor else 0 - (0.0 - x).Floor;
    if t > INT_MAX then INT_MAX else if t < INT_MIN then INT_MIN else t
  }
}
