/** The dynamic values a full-mode document holds (Go's `interface{}` values
    that the encoders' type switches recognise), and the `%v` rendering of the
    scalar ones. */
module Values {

  /** `float32`/`float64` carry the text `%v` renders them as; `int`,
      `int32` and `int64` are one unbounded integer case. */
  datatype Scalar = Float(rendered: string) | Int(n: int) | Bool(b: bool) | Str(s: string)

  datatype Value =
    | Plain(scalar: Scalar)                   // float32, float64, int, int32, int64, string, bool
    | IntArray(ints: seq<int>)                // []int
    | StringArray(strs: seq<string>)          // []string
    | Section(entries: map<string, Value>)    // map[string]interface{}
    | Unsupported                             // any other dynamic type

  predicate IsDigit(c: char) {
    '0' <= c <= '9'
  }

  /** Decimal digits of a natural number, without leading zeros. */
  function NatText(n: nat): (r: string)
    ensures |r| > 0 && forall i :: 0 <= i < |r| ==> IsDigit(r[i])
    ensures r[0] == '0' <==> n == 0
    ensures n == 0 ==> r == "0"
    decreases n
  {
    if n < 10 then ["0123456789"[n]]
    else NatText(n / 10) + ["0123456789"[n % 10]]
  }

  /** The number a string of decimal digits denotes. */
  function DigitsValue(s: string): (v: nat)
    requires forall i :: 0 <= i < |s| ==> IsDigit(s[i])
  {
    if s == [] then 0
    else
      var last := s[|s| - 1];
      assert IsDigit(last);
      DigitsValue(s[..|s| - 1]) * 10 + (last as int - '0' as int)
  }

  /** The digits of NatText denote `n`. */
  lemma {:induction false} NatTextValue(n: nat)
    ensures DigitsValue(NatText(n)) == n
    decreases n
  {
    if n >= 10 {
      NatTextValue(n / 10);
      assert NatText(n)[..|NatText(n)| - 1] == NatText(n / 10);
    }
  }

  /** `%v` of an integer: a minus sign for negative numbers, then the digits. */
  function IntText(n: int): (r: string)
    ensures |r| > 0
    ensures r[0] == '-' <==> n < 0
    ensures forall i :: (if n < 0 then 1 else 0) <= i < |r| ==> IsDigit(r[i])
    ensures n < 0 ==> |r| > 1 && r[1] != '0'
    ensures n >= 0 ==> (r[0] == '0' ==> r == "0")
  {
    if n < 0 then "-" + NatText(-n) else NatText(n)
  }

  /** The digits after the sign denote the absolute value. */
  lemma IntTextValue(n: int)
    ensures n < 0 ==> DigitsValue(IntText(n)[1..]) == -n
    ensures n >= 0 ==> DigitsValue(IntText(n)) == n
  {
    if n < 0 {
      var digits := NatText(-n);
      assert ("-" + digits)[1..] == digits;
      NatTextValue(-n);
    } else {
      NatTextValue(n);
    }
  }

  /** `%v` of a scalar: strings verbatim (no quoting, no escaping), booleans
      as `true`/`false`, integers in decimal. */
  function Format(v: Scalar): (r: string)
    ensures v.Float? ==> r == v.rendered
    ensures v.Int? ==> r == IntText(v.n)
    ensures v.Bool? ==> r == (if v.b then "true" else "false")
    ensures v.Str? ==> r == v.s
  {
    match v
    case Float(text) => text
    case Int(n) => IntText(n)
    case Bool(b) => if b then "true" else "false"
    case Str(s) => s
  }
}
