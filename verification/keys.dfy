/**
 * Dictionary keys and their textual form (Python's `str(key)`).
 *
 * The model distinguishes the key kinds the library's examples use: strings,
 * integers, booleans and None. Each has a fixed text, which is what the
 * attribute-name derivation works on.
 */
module DictKeys {

  /** A hashable dictionary key. */
  datatype Key = KStr(s: string) | KInt(i: int) | KBool(b: bool) | KNone

  /** The ASCII decimal digits, the model's reading of `str.isdigit` on one character. */
  predicate IsDigit(c: char) {
    '0' <= c <= '9'
  }

  predicate AllDigits(s: string) {
    forall i :: 0 <= i < |s| ==> IsDigit(s[i])
  }

  function DigitChar(d: nat): (c: char)
    requires d < 10
    ensures IsDigit(c) && c as int - '0' as int == d
  {
    ('0' as int + d) as char
  }

  /** Decimal text of a natural number, most significant digit first, no leading zeros. */
  function NatToString(n: nat): (s: string)
    ensures 1 <= |s| && AllDigits(s)
    ensures (|s| == 1) == (n < 10)
  {
    if n < 10 then [DigitChar(n)] else NatToString(n / 10) + [DigitChar(n % 10)]
  }

  /** Reads a string of decimal digits back as a number. */
  function ParseNat(s: string): nat
    requires AllDigits(s)
  {
    if s == [] then 0 else ParseNat(s[..|s| - 1]) * 10 + (s[|s| - 1] as int - '0' as int)
  }

  /** Parsing undoes printing. */
  lemma {:induction false} ParseNatToString(n: nat)
    ensures ParseNat(NatToString(n)) == n
  {
    var s := NatToString(n);
    if n >= 10 {
      ParseNatToString(n / 10);
      assert s[..|s| - 1] == NatToString(n / 10);
    }
  }

  /** Different numbers print differently. */
  lemma NatToStringInjective(a: nat, b: nat)
    ensures NatToString(a) == NatToString(b) ==> a == b
  {
    ParseNatToString(a);
    ParseNatToString(b);
  }

  /** Python's `str(i)` for an integer. */
  function IntToString(i: int): (s: string)
    ensures 1 <= |s|
    ensures IsDigit(s[0]) <==> i >= 0
  {
    if i < 0 then "-" + NatToString(-i) else NatToString(i)
  }

  /** Python's `str(key)`. */
  function KeyText(k: Key): (s: string)
    ensures |s| == 0 <==> k == KStr([])
    ensures !k.KStr? ==> (IsDigit(s[0]) <==> k.KInt? && k.i >= 0)
  {
    match k
    case KStr(s) => s
    case KInt(i) => IntToString(i)
    case KBool(b) => if b then "True" else "False"
    case KNone => "None"
  }
}
