/**
 * Decoded JSON record fields, and the few Python operations the engine
 * applies to them: `str()` (used by `str.format`), truthiness (`if x:`),
 * subscription of a dict (`d[key]`) and of a sequence (`x[0]`), together with
 * the exceptions those raise.
 */
module JsonValues {
  import opened Wrappers

  /** A field value of a decoded record: a string, an integer or a list of strings. */
  datatype Value = Str(s: string) | Num(n: int) | StrList(items: seq<string>)

  /** One decoded record object (a Python dict with string keys). */
  type Record = map<string, Value>

  /** The Python exceptions the engine can raise; each names the key it was working on. */
  datatype Error = KeyError(key: string) | IndexError(key: string) | TypeError(key: string)

  /** `rec[key]`: the value, or KeyError when the key is absent. */
  function Lookup(rec: Record, key: string): (r: Result<Value, Error>)
    ensures r.Success? <==> key in rec
    ensures r.Success? ==> r.value == rec[key]
    ensures r.Failure? ==> r.error == KeyError(key)
  {
    if key in rec then Success(rec[key]) else Failure(KeyError(key))
  }

  /** Python truthiness: empty strings, empty lists and zero are false. */
  function Truthy(v: Value): (b: bool)
    ensures !b <==> v == Str("") || v == Num(0) || v == StrList([])
  {
    match v
    case Str(s) => s != ""
    case Num(n) => n != 0
    case StrList(items) => items != []
  }

  /** `v[0]` where `v` was read from field `key`: a string yields its first
      character, a list its first element; an empty one raises IndexError and
      an integer TypeError. */
  function FirstItem(v: Value, key: string): (r: Result<string, Error>)
    ensures r.Failure? <==> !Truthy(v) || v.Num?
    ensures r.Success? && v.StrList? ==> r.value == v.items[0]
    ensures r.Success? && v.Str? ==> |r.value| == 1 && r.value[0] == v.s[0]
    ensures r.Failure? ==> r.error == if v.Num? then TypeError(key) else IndexError(key)
  {
    match v
    case Str(s) => if s == "" then Failure(IndexError(key)) else Success([s[0]])
    case Num(_) => Failure(TypeError(key))
    case StrList(items) => if items == [] then Failure(IndexError(key)) else Success(items[0])
  }

  function DigitChar(d: nat): (c: char)
    requires d < 10
  {
    "0123456789"[d]
  }

  predicate IsDigit(c: char) {
    '0' <= c <= '9'
  }

  /** The decimal numeral of `n`, without leading zeros. */
  function Digits(n: nat): (r: string)
    ensures |r| > 0
    ensures IsNumeral(r)
    ensures n > 0 ==> r[0] != '0'
    decreases n
  {
    if n < 10 then [DigitChar(n)] else Digits(n / 10) + [DigitChar(n % 10)]
  }

  /** A string of decimal digits only. */
  predicate IsNumeral(s: string) {
    forall i :: 0 <= i < |s| ==> IsDigit(s[i])
  }

  function DigitValue(c: char): (d: nat)
    requires IsDigit(c)
    ensures d < 10
  {
    c as int - '0' as int
  }

  /** The number a string of decimal digits denotes. */
  function DigitsValue(s: string): nat
    requires IsNumeral(s)
  {
    if s == [] then 0 else 10 * DigitsValue(s[..|s| - 1]) + DigitValue(s[|s| - 1])
  }

  /** Reading back a numeral gives the number it was made from. */
  lemma {:induction false} DigitsRoundTrip(n: nat)
    ensures DigitsValue(Digits(n)) == n
    decreases n
  {
    var r := Digits(n);
    if n >= 10 {
      assert r[..|r| - 1] == Digits(n / 10);
      DigitsRoundTrip(n / 10);
    }
  }

  /** The items of a list of strings as Python writes them inside `[...]`. */
  function QuotedItems(items: seq<string>): string
    decreases |items|
  {
    if items == [] then ""
    else if |items| == 1 then "'" + items[0] + "'"
    else "'" + items[0] + "', " + QuotedItems(items[1..])
  }

  /** Python `str(v)`, which is what `str.format` inserts for a field. An
      integer is written as an optional minus sign and decimal digits that
      read back as its magnitude. */
  function Render(v: Value): (r: string)
    ensures v.Str? ==> r == v.s
    ensures v.Num? ==> |r| > 0 && (r[0] == '-' <==> v.n < 0)
    ensures v.Num? && v.n >= 0 ==> IsNumeral(r) && DigitsValue(r) == v.n
    ensures v.Num? && v.n < 0 ==> IsNumeral(r[1..]) && DigitsValue(r[1..]) == -v.n
    ensures v.StrList? ==> |r| >= 2 && r[0] == '[' && r[|r| - 1] == ']'
  {
    match v
    case Str(s) => s
    case Num(n) =>
      if n < 0 then
        DigitsRoundTrip(-n);
        assert ("-" + Digits(-n))[1..] == Digits(-n);
        "-" + Digits(-n)
      else
        DigitsRoundTrip(n);
        Digits(n)
    case StrList(items) => "[" + QuotedItems(items) + "]"
  }
}
