/** Numbers as text in any base up to sixteen, and searching in text. */
module Text {

  datatype Option<+T> = None | Some(value: T)

  function Digit(d: nat): (c: char)
    requires d < 16
    ensures HexValue(c) == d
    ensures c in "0123456789abcdef"
    ensures d < 10 ==> IsDecimal(c)
    ensures c == '0' <==> d == 0
  {
    "0123456789abcdef"[d]
  }

  predicate IsDecimal(c: char) {
    '0' <= c <= '9'
  }

  /** The value of a hexadecimal digit of either case, or -1. */
  function HexValue(c: char): int {
    if '0' <= c <= '9' then c as int - '0' as int
    else if 'a' <= c <= 'f' then c as int - 'a' as int + 10
    else if 'A' <= c <= 'F' then c as int - 'A' as int + 10
    else -1
  }

  predicate IsHex(c: char) {
    HexValue(c) >= 0
  }

  /** The digits, of either case. */
  lemma DigitsAre(c: char)
    ensures IsDecimal(c) <==> c in "0123456789"
    ensures IsHex(c) <==> c in "0123456789abcdefABCDEF"
  {
  }

  lemma DigitValues(d: nat)
    requires d < 16
    ensures HexValue("0123456789abcdef"[d]) == HexValue("0123456789ABCDEF"[d]) == d
  {
  }

  /** A number without leading zeros, most significant digit first. */
  function Number(n: nat, base: nat): (s: string)
    requires 2 <= base <= 16
    ensures s != "" && AllHex(s)
  {
    if n < base then [Digit(n)] else Number(n / base, base) + [Digit(n % base)]
  }

  lemma {:induction false} NumberDigits(n: nat, base: nat)
    requires 2 <= base <= 16
    ensures forall i :: 0 <= i < |Number(n, base)| ==>
              Number(n, base)[i] in "0123456789abcdef" && HexValue(Number(n, base)[i]) < base
  {
    hide Digit, HexValue;
    if n < base {
    } else {
      NumberDigits(n / base, base);
    }
  }

  predicate AllDecimal(s: string) {
    forall i :: 0 <= i < |s| ==> IsDecimal(s[i])
  }

  predicate AllHex(s: string) {
    forall i :: 0 <= i < |s| ==> IsHex(s[i])
  }

  /** The value text adds, digit by digit, to what was read before it. */
  function ValueFrom(v: nat, s: string, base: nat): nat
    requires AllHex(s)
  {
    if s == "" then v
    else
      assert IsHex(s[|s| - 1]);
      ValueFrom(v, s[..|s| - 1], base) * base + HexValue(s[|s| - 1])
  }

  lemma {:induction false} ValueOfNumber(n: nat, base: nat)
    requires 2 <= base <= 16
    ensures ValueFrom(0, Number(n, base), base) == n
  {
    if n < base {
      assert Number(n, base)[..0] == "";
    } else {
      ValueOfNumber(n / base, base);
      var s := Number(n, base);
      assert s[..|s| - 1] == Number(n / base, base);
      DivMod(n, base);
    }
  }

  lemma DivMod(n: nat, base: nat)
    requires base > 0
    ensures n / base * base + n % base == n
  {
  }

  /** Sections 4.1 and 4.3 of RFC 5952: no leading zero, lower case. */
  lemma {:induction false} NumberIsShortest(n: nat, base: nat)
    requires 2 <= base <= 16
    ensures n == 0 <==> Number(n, base)[0] == '0'
    ensures n == 0 ==> Number(n, base) == "0"
  {
    if n < base {
    } else {
      DivPositive(n, base);
      NumberIsShortest(n / base, base);
    }
  }

  lemma DivPositive(n: nat, base: nat)
    requires 0 < base <= n
    ensures n / base > 0
  {
  }

  lemma NumberStep(n: nat, base: nat)
    requires 2 <= base <= 16
    ensures |Number(n, base)| == if n < base then 1 else 1 + |Number(n / base, base)|
  {
  }

  lemma HexLength(n: nat)
    requires n < 0x1_0000
    ensures |Number(n, 16)| <= 4
  {
    hide Number;
    NumberStep(n, 16);
    NumberStep(n / 16, 16);
    NumberStep(n / 16 / 16, 16);
    NumberStep(n / 16 / 16 / 16, 16);
  }

  lemma DecimalLength(n: nat)
    requires n < 100000
    ensures |Number(n, 10)| <= 5
  {
    hide Number;
    NumberStep(n, 10);
    NumberStep(n / 10, 10);
    NumberStep(n / 10 / 10, 10);
    NumberStep(n / 10 / 10 / 10, 10);
    NumberStep(n / 10 / 10 / 10 / 10, 10);
  }

  /** The first position of a character, or the length of the text. */
  function IndexOf(s: string, c: char): (k: nat)
    ensures k <= |s|
    ensures k < |s| ==> s[k] == c
    ensures forall i :: 0 <= i < k ==> s[i] != c
  {
    if s == "" || s[0] == c then 0 else 1 + IndexOf(s[1..], c)
  }

  lemma IndexIs(s: string, c: char, k: nat)
    requires k < |s| && s[k] == c && forall i :: 0 <= i < k ==> s[i] != c
    ensures IndexOf(s, c) == k
  {
  }

  lemma IndexAbsent(s: string, c: char)
    requires c !in s
    ensures IndexOf(s, c) == |s|
  {
  }

  /** The last position of a character, if there is one. */
  function LastIndexOf(s: string, c: char): (k: Option<nat>)
    ensures k.None? ==> c !in s
    ensures k.Some? ==> k.value < |s| && s[k.value] == c && forall i :: k.value < i < |s| ==> s[i] != c
  {
    if s == "" then None
    else if s[|s| - 1] == c then Some(|s| - 1)
    else LastIndexOf(s[..|s| - 1], c)
  }

  /** The first position of two colons in a row, or the length of the text. */
  function DoubleColon(s: string): (k: nat)
    ensures k <= |s|
    ensures k < |s| ==> k + 1 < |s| && s[k] == ':' && s[k + 1] == ':'
    ensures forall i :: 0 <= i < k && i + 1 < |s| ==> !(s[i] == ':' && s[i + 1] == ':')
  {
    if |s| < 2 then |s|
    else if s[0] == ':' && s[1] == ':' then 0
    else 1 + DoubleColon(s[1..])
  }
}
