/** Small value types and sequence helpers shared by the other modules. */
module Common {

  datatype Option<+T> = None | Some(value: T)

  /** A C string compared with `strcmp`: two texts are equal exactly when their
      characters are. Kept as a name so the dispatcher reads like the source. */
  predicate StrEq(a: seq<char>, b: seq<char>) {
    a == b
  }

  /** `/` or `\`: both separate path segments on the device side. */
  predicate IsSep(c: char) {
    c == '/' || c == '\\'
  }

  /** Decimal text of a natural number, as `%d` prints it. */
  function DecimalText(n: nat): (r: seq<char>)
    ensures |r| >= 1
    ensures forall k :: 0 <= k < |r| ==> '0' <= r[k] <= '9'
    decreases n
  {
    if n < 10 then [DigitChar(n)] else DecimalText(n / 10) + [DigitChar(n % 10)]
  }

  function DigitChar(d: nat): (c: char)
    requires d < 10
    ensures '0' <= c <= '9'
  {
    ('0' as int + d) as char
  }

  /** Value of a non-empty run of decimal digits. */
  function DigitsValue(ds: seq<char>): nat
    requires forall k :: 0 <= k < |ds| ==> '0' <= ds[k] <= '9'
  {
    if ds == [] then 0 else DigitsValue(ds[..|ds| - 1]) * 10 + (ds[|ds| - 1] as int - '0' as int)
  }

  /** Reading the decimal text back gives the number. */
  lemma {:induction false} DecimalRoundTrip(n: nat)
    ensures DigitsValue(DecimalText(n)) == n
    decreases n
  {
    if n >= 10 {
      DecimalRoundTrip(n / 10);
      var t := DecimalText(n);
      assert t[..|t| - 1] == DecimalText(n / 10);
    }
  }

  predicate EndsWithSep(s: seq<char>) {
    |s| > 0 && IsSep(s[|s| - 1])
  }

  /** The C string held in a buffer: its characters up to the first NUL. */
  function UntilNul(s: seq<char>): (r: seq<char>)
    ensures |r| <= |s| && r == s[..|r|]
    ensures '\0' !in r
    ensures |r| < |s| ==> s[|r|] == '\0'
  {
    if s == [] || s[0] == '\0' then [] else [s[0]] + UntilNul(s[1..])
  }

  function Min(a: int, b: int): int {
    if a < b then a else b
  }
}
