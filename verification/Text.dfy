/** Characters and decimal text shared by every other module. */
module Text {

  /** Printable ASCII that JSON writes as itself: what every fixed renderer of the sanitiser produces. */
  predicate IsPlain(c: char) {
    ' ' <= c <= '~' && c != '"' && c != '\\'
  }

  type Plain = s: string | forall i :: 0 <= i < |s| ==> IsPlain(s[i]) witness ""

  predicate IsAscii(s: string) {
    forall i :: 0 <= i < |s| ==> s[i] < 128 as char
  }

  predicate IsDigit(c: char) {
    '0' <= c <= '9'
  }

  function Max(a: int, b: int): int {
    if a < b then b else a
  }

  function Min(a: int, b: int): int {
    if a < b then a else b
  }

  /** `s[:n]` as Python slices: a bound beyond the end is the end. */
  function Take(s: string, n: nat): (t: string)
    ensures t <= s && |t| == Min(n, |s|)
  {
    s[..Min(n, |s|)]
  }

  /** `str(n)` of a natural number. */
  function Digits(n: nat): (s: string)
    ensures |s| > 0 && forall i :: 0 <= i < |s| ==> IsDigit(s[i])
  {
    var last := ['0' + (n % 10) as char];
    if n < 10 then last else Digits(n / 10) + last
  }

  /** `str(n)` of an integer. */
  function Decimal(n: int): (s: Plain) {
    if n < 0 then "-" + Digits(-n) else Digits(n)
  }

  function Pow10(k: nat): nat {
    if k == 0 then 1 else 10 * Pow10(k - 1)
  }

  lemma {:induction false} DigitsLength(n: nat, k: nat)
    requires 1 <= k && n < Pow10(k)
    ensures |Digits(n)| <= k
  {
    if n >= 10 {
      assert Pow10(k) == 10 * Pow10(k - 1);
      assert k > 1;
      DigitsLength(n / 10, k - 1);
    }
  }

  /** `int(s)` for a run of ASCII digits. */
  function Number(s: string): nat
    requires forall i :: 0 <= i < |s| ==> IsDigit(s[i])
  {
    if s == "" then 0
    else
      var last := s[|s| - 1];
      assert IsDigit(last);
      10 * Number(s[..|s| - 1]) + (last as int - '0' as int)
  }

  /** Reading back the decimal text of a number gives the number. */
  lemma {:induction false} NumberOfDigits(n: nat)
    ensures Number(Digits(n)) == n
  {
    var s := Digits(n);
    var last := ['0' + (n % 10) as char];
    if n < 10 {
      assert s == last && s[..|s| - 1] == "";
    } else {
      NumberOfDigits(n / 10);
      assert s[..|s| - 1] == Digits(n / 10);
    }
  }
}
