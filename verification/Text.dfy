/** Decimal and hexadecimal text, and splitting text at a separator. */
module Text {
  import opened Prelude

  // ---------- splitting ----------

  /** Two texts cut at the same separator are equal piece by piece if the separator does
      not occur before the cut. */
  lemma SplitAtFirst(x1: string, y1: string, x2: string, y2: string, c: char)
    requires c !in x1 && c !in x2
    requires x1 + [c] + y1 == x2 + [c] + y2
    ensures x1 == x2 && y1 == y2
  {
    var all := x1 + [c] + y1;
    assert all[|x1|] == c && all[|x2|] == c;
    assert forall i :: 0 <= i < |x1| ==> all[i] == x1[i];
    assert forall i :: 0 <= i < |x2| ==> all[i] == x2[i];
    assert x1 == all[..|x1|] && x2 == all[..|x2|];
    assert y1 == all[|x1| + 1..] && y2 == all[|x2| + 1..];
  }

  /** The same when the separator does not occur after the cut. */
  lemma SplitAtLast(x1: string, y1: string, x2: string, y2: string, c: char)
    requires c !in y1 && c !in y2
    requires x1 + [c] + y1 == x2 + [c] + y2
    ensures x1 == x2 && y1 == y2
  {
    var all := x1 + [c] + y1;
    assert all == x2 + [c] + y2;
    assert all[|x1|] == c && all[|x2|] == c;
    assert forall i :: |x1| < i < |all| ==> all[i] == y1[i - |x1| - 1];
    assert forall i :: |x2| < i < |all| ==> all[i] == y2[i - |x2| - 1];
    assert x1 == all[..|x1|] && x2 == all[..|x2|];
    assert y1 == all[|x1| + 1..] && y2 == all[|x2| + 1..];
  }

  /** The first position of c, or the length of the text. */
  function IndexOf(s: string, c: char): (i: nat)
    ensures i <= |s| && c !in s[..i] && (i < |s| ==> s[i] == c)
  {
    if |s| == 0 || s[0] == c then 0
    else
      var i := 1 + IndexOf(s[1..], c);
      assert s[..i] == [s[0]] + s[1..][..i - 1];
      i
  }

  lemma IndexOfPrefix(x: string, c: char, y: string)
    requires c !in x
    ensures IndexOf(x + [c] + y, c) == |x|
  {
    var s := x + [c] + y;
    var i := IndexOf(s, c);
    assert s[|x|] == c;
    assert forall k :: 0 <= k < |x| ==> s[k] == x[k];
    assert forall k :: 0 <= k < i ==> s[k] == s[..i][k];
  }

  // ---------- decimal ----------

  predicate IsDigit(c: char) {
    '0' <= c <= '9'
  }

  predicate AllDigits(s: string) {
    forall c :: c in s ==> IsDigit(c)
  }

  function Digit(d: nat): (c: char)
    requires d < 10
    ensures IsDigit(c) && c as int - '0' as int == d
  {
    ('0' as int + d) as char
  }

  function Decimal(n: nat): (s: string)
    ensures AllDigits(s) && |s| > 0
  {
    if n < 10 then [Digit(n)] else Decimal(n / 10) + [Digit(n % 10)]
  }

  function DecimalValue(s: string): nat
    requires AllDigits(s)
  {
    if |s| == 0 then 0
    else
      assert s[|s| - 1] in s;
      DecimalValue(s[..|s| - 1]) * 10 + (s[|s| - 1] as int - '0' as int)
  }

  lemma {:induction false} DecimalRoundTrip(n: nat)
    ensures DecimalValue(Decimal(n)) == n
  {
    if n < 10 {
    } else {
      DecimalRoundTrip(n / 10);
      assert Decimal(n)[..|Decimal(n)| - 1] == Decimal(n / 10);
    }
  }

  lemma DecimalInjective(m: nat, n: nat)
    requires Decimal(m) == Decimal(n)
    ensures m == n
  {
    DecimalRoundTrip(m);
    DecimalRoundTrip(n);
  }

  // ---------- strconv.FormatInt and strconv.ParseInt, base 10, 64 bits ----------

  const TWO_TO_63: int := 0x8000_0000_0000_0000

  function FormatInt(x: int): string {
    if x < 0 then "-" + Decimal(-x) else Decimal(x)
  }

  /** None stands for the syntax and range errors. */
  function ParseInt(s: string): Option<int> {
    if |s| == 0 then None
    else
      var signed := s[0] == '-' || s[0] == '+';
      var digits := if signed then s[1..] else s;
      if |digits| == 0 || !AllDigits(digits) then None
      else
        InRange(s[0] == '-', DecimalValue(digits))
  }

  function InRange(negative: bool, magnitude: int): Option<int> {
    if negative then
      if magnitude > TWO_TO_63 then None else Some(-magnitude)
    else
      if magnitude >= TWO_TO_63 then None else Some(magnitude)
  }

  /** Printing and parsing an integer gives it back exactly when it is a 64-bit integer. */
  lemma FormatParseInt(x: int)
    ensures ParseInt(FormatInt(x)) == if -TWO_TO_63 <= x < TWO_TO_63 then Some(x) else None
  {
    if x < 0 { ParseNegative(-x); } else { ParseNatural(x); }
  }

  lemma ParseNatural(n: nat)
    ensures ParseInt(Decimal(n)) == if n < TWO_TO_63 then Some(n) else None
  {
    DecimalRoundTrip(n);
    assert Decimal(n)[0] in Decimal(n);
  }

  lemma ParseNegative(n: nat)
    ensures ParseInt("-" + Decimal(n)) == if n <= TWO_TO_63 then Some(0 - n) else None
  {
    DecimalRoundTrip(n);
    assert ("-" + Decimal(n))[1..] == Decimal(n);
  }

  function Zeros(z: nat): (s: string)
    ensures AllDigits(s)
  {
    if z == 0 then [] else Zeros(z - 1) + ['0']
  }

  lemma DecimalAppend(n: nat, c: char)
    requires IsDigit(c) && n > 0
    ensures Decimal(n * 10 + (c as int - '0' as int)) == Decimal(n) + [c]
  {
    var d := c as int - '0' as int;
    assert (n * 10 + d) / 10 == n && (n * 10 + d) % 10 == d;
    assert Digit(d) == c;
  }

  lemma {:induction false} ZerosValue(z: nat)
    ensures DecimalValue(Zeros(z)) == 0
  {
    if z == 0 {
    } else {
      ZerosValue(z - 1);
      var s := Zeros(z);
      assert s[..|s| - 1] == Zeros(z - 1) && s[|s| - 1] == '0';
    }
  }

  lemma {:induction false} PaddedValue(z: nat, n: nat)
    ensures AllDigits(Zeros(z) + Decimal(n)) && DecimalValue(Zeros(z) + Decimal(n)) == n
  {
    var s := Zeros(z) + Decimal(n);
    if n < 10 {
      assert s[..|s| - 1] == Zeros(z);
      ZerosValue(z);
    } else {
      PaddedValue(z, n / 10);
      assert s[..|s| - 1] == Zeros(z) + Decimal(n / 10);
    }
  }

  /** Every text of digits is a printed number, perhaps with zeros before it. */
  lemma {:induction false} DigitsArePadded(s: string) returns (z: nat, n: nat)
    requires |s| > 0 && AllDigits(s)
    ensures s == Zeros(z) + Decimal(n) && DecimalValue(s) == n
  {
    var last := |s| - 1;
    var c := s[last];
    assert c in s && s == s[..last] + [c];
    if last == 0 {
      z, n := 0, c as int - '0' as int;
    } else {
      var m;
      z, m := DigitsArePadded(s[..last]);
      n := m * 10 + (c as int - '0' as int);
      if m == 0 {
        z := z + 1;
      } else {
        DecimalAppend(m, c);
        assert Zeros(z) + Decimal(n) == Zeros(z) + Decimal(m) + [c];
      }
    }
    PaddedValue(z, n);
  }

  datatype Sign = NoSign | Plus | Minus

  function Signed(sign: Sign, digits: string): string {
    match sign
    case NoSign => digits
    case Plus => ['+'] + digits
    case Minus => ['-'] + digits
  }

  function WithSign(sign: Sign, n: int): int {
    if sign.Minus? then 0 - n else n
  }

  /** The texts of an integer: an optional sign, zeros, and the number in decimal. */
  ghost predicate Writes(s: string, v: int) {
    exists sign, z: nat, n: nat :: s == Signed(sign, Zeros(z) + Decimal(n)) && v == WithSign(sign, n)
  }

  lemma ParsedIsWritten(s: string)
    requires ParseInt(s).Some?
    ensures Writes(s, ParseInt(s).value)
  {
    var sign := if s[0] == '-' then Minus else if s[0] == '+' then Plus else NoSign;
    var digits := if sign.NoSign? then s else s[1..];
    var z, n := DigitsArePadded(digits);
    assert s == Signed(sign, digits);
    assert s == Signed(sign, Zeros(z) + Decimal(n)) && ParseInt(s).value == WithSign(sign, n);
  }

  lemma DigitsParse(digits: string)
    requires |digits| > 0 && AllDigits(digits)
    ensures ParseInt(digits) == InRange(false, DecimalValue(digits))
  {
    assert digits[0] in digits;
  }

  lemma SignedParses(c: char, digits: string)
    requires (c == '+' || c == '-') && |digits| > 0 && AllDigits(digits)
    ensures ParseInt([c] + digits) == InRange(c == '-', DecimalValue(digits))
  {
    var s := [c] + digits;
    assert s[0] == c && s[1..] == digits;
  }

  lemma WrittenParses(sign: Sign, digits: string)
    requires |digits| > 0 && AllDigits(digits)
    ensures var v := WithSign(sign, DecimalValue(digits));
            ParseInt(Signed(sign, digits)) == if -TWO_TO_63 <= v < TWO_TO_63 then Some(v) else None
  {
    match sign
    case NoSign => DigitsParse(digits);
    case Plus => SignedParses('+', digits);
    case Minus => SignedParses('-', digits);
  }

  /** What parses as an integer, and as which. */
  lemma ParsesIff(s: string, v: int)
    ensures ParseInt(s) == Some(v) <==> Writes(s, v) && -0x8000_0000_0000_0000 <= v < 0x8000_0000_0000_0000
  {
    if ParseInt(s) == Some(v) {
      ParsedIsWritten(s);
    }
    if Writes(s, v) {
      var sign, z: nat, n: nat :|
        s == Signed(sign, Zeros(z) + Decimal(n)) && v == WithSign(sign, n);
      PaddedValue(z, n);
      WrittenParses(sign, Zeros(z) + Decimal(n));
    }
  }

  // ---------- Base16, printed in lower case and decoded in both ----------

  type byte = b: nat | b < 256

  function HexDigit(d: nat): (c: char)
    requires d < 16
    ensures IsDigit(c) || 'a' <= c <= 'f'
  {
    if d < 10 then Digit(d) else ('a' as int + (d - 10)) as char
  }

  function HexValue(c: char): (v: Option<nat>)
    ensures v.Some? ==> v.value < 16
  {
    if '0' <= c <= '9' then Some(c as int - '0' as int)
    else if 'a' <= c <= 'f' then Some(c as int - 'a' as int + 10)
    else if 'A' <= c <= 'F' then Some(c as int - 'A' as int + 10)
    else None
  }

  function HexEncode(bytes: seq<byte>): string {
    if |bytes| == 0 then [] else [HexDigit(bytes[0] / 16), HexDigit(bytes[0] % 16)] + HexEncode(bytes[1..])
  }

  /** None stands for an odd length or an invalid character. */
  function HexDecode(s: string): Option<seq<byte>> {
    if |s| == 0 then Some([])
    else if |s| == 1 then None
    else
      var high, low, rest := HexValue(s[0]), HexValue(s[1]), HexDecode(s[2..]);
      if high.None? || low.None? || rest.None? then None
      else Some([high.value * 16 + low.value] + rest.value)
  }

  lemma HexDigitText(d: nat)
    requires d < 16
    ensures HexDigit(d) == "0123456789abcdef"[d]
  {
  }

  /** Two lower-case digits for each byte, the high one first. */
  lemma {:induction false} HexText(bytes: seq<byte>, i: nat)
    requires i < |bytes|
    ensures |HexEncode(bytes)| == 2 * |bytes|
    ensures HexEncode(bytes)[2 * i] == "0123456789abcdef"[bytes[i] / 16]
    ensures HexEncode(bytes)[2 * i + 1] == "0123456789abcdef"[bytes[i] % 16]
    decreases |bytes|
  {
    HexDigitText(bytes[i] / 16);
    HexDigitText(bytes[i] % 16);
    if |bytes| == 1 {
    } else {
      HexText(bytes[1..], if i == 0 then 0 else i - 1);
    }
  }

  /** What decodes: an even number of hexadecimal digits, in either case. */
  lemma {:induction false} HexDecodesIff(s: string)
    ensures HexDecode(s).Some? <==>
            |s| % 2 == 0 && forall c :: c in s ==> '0' <= c <= '9' || 'a' <= c <= 'f' || 'A' <= c <= 'F'
  {
    if |s| < 2 {
      assert |s| == 1 ==> |s| % 2 == 1;
    } else {
      HexDecodesIff(s[2..]);
      assert s == [s[0], s[1]] + s[2..];
      assert s[0] in s && s[1] in s && forall c :: c in s[2..] ==> c in s;
    }
  }

  lemma HexDigitRoundTrip(d: nat)
    requires d < 16
    ensures HexValue(HexDigit(d)) == Some(d)
  {
  }

  lemma {:induction false} HexRoundTrip(bytes: seq<byte>)
    ensures HexDecode(HexEncode(bytes)) == Some(bytes)
    ensures '.' !in HexEncode(bytes)
  {
    if |bytes| == 0 {
    } else {
      HexRoundTrip(bytes[1..]);
      HexDigitRoundTrip(bytes[0] / 16);
      HexDigitRoundTrip(bytes[0] % 16);
      assert bytes == [bytes[0]] + bytes[1..];
      assert HexEncode(bytes)[2..] == HexEncode(bytes[1..]);
    }
  }
}
