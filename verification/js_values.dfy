/**
  How the handler's template literal turns a metadata value into text.

  The vector index stores metadata values as strings, numbers, booleans or
  lists of strings; a key that a record does not carry reads as `undefined`.
  Interpolating `${v}` applies JavaScript's ToString to the value.
 */
module JsValues {
  import opened Results

  datatype Field =
    | Text(s: string)
    | Number(n: int)
    | Flag(b: bool)
    | List(items: seq<string>)
    | Undefined

  /** ToString of a metadata value, as `${v}` produces it. A number's text
      reads back as that number and a list's text splits back into its items,
      so no value is lost in the block. */
  function Stringify(f: Field): (r: string)
    ensures f.Text? ==> r == f.s
    ensures f.Number? ==> ParseInteger(r) == Some(f.n)
    ensures f.Flag? ==> r == (if f.b then "true" else "false")
    ensures f.List? && |f.items| >= 1 && (forall i :: 0 <= i < |f.items| ==> ',' !in f.items[i]) ==>
      Split(r, ',') == f.items
    ensures f.Undefined? ==> r == "undefined"
  {
    match f
    case Text(s) => s
    case Number(n) =>
      IntegerRoundTrip(n);
      IntToString(n)
    case Flag(b) => if b then "true" else "false"
    case List(items) =>
      if |items| >= 1 && forall i :: 0 <= i < |items| ==> ',' !in items[i] then
        JoinRoundTrip(items, ',');
        Join(items, ',')
      else Join(items, ',')
    case Undefined => "undefined"
  }

  // ---------------------------------------------------------------------------
  // Numbers: Number::toString on an integral value is its shortest decimal
  // form, with a leading '-' when negative.

  predicate IsDigit(c: char) {
    '0' <= c <= '9'
  }

  predicate AllDigits(s: string) {
    forall i :: 0 <= i < |s| ==> IsDigit(s[i])
  }

  function Digit(d: nat): (c: char)
    requires d < 10
    ensures IsDigit(c) && c as int - '0' as int == d
  {
    (d + '0' as int) as char
  }

  /** The decimal digits of `n`, most significant first, without leading zeros. */
  function NatToDecimal(n: nat): (s: string)
    ensures |s| >= 1 && AllDigits(s)
    ensures s[0] == '0' <==> n == 0
    ensures n == 0 ==> s == "0"
  {
    if n < 10 then [Digit(n)] else NatToDecimal(n / 10) + [Digit(n % 10)]
  }

  /** The value a string of decimal digits denotes (an independent reading of `NatToDecimal`). */
  function DecimalValue(s: string): nat
    requires AllDigits(s)
  {
    if |s| == 0 then 0 else DecimalValue(s[..|s| - 1]) * 10 + (s[|s| - 1] as int - '0' as int)
  }

  function IntToString(n: int): (s: string)
    ensures '\n' !in s
  {
    if n < 0 then "-" + NatToDecimal(-n) else NatToDecimal(n)
  }

  /** Reads back an integer written by `IntToString`; `None` for any other text. */
  function ParseInteger(s: string): Option<int> {
    if |s| > 0 && s[0] == '-' then
      var digits := s[1..];
      if |digits| > 0 && AllDigits(digits) && digits[0] != '0' then Some(0 - DecimalValue(digits) as int) else None
    else if |s| > 0 && AllDigits(s) && (s[0] != '0' || |s| == 1) then Some(DecimalValue(s))
    else None
  }

  lemma {:induction false} DecimalRoundTrip(n: nat)
    ensures DecimalValue(NatToDecimal(n)) == n
  {
    if n >= 10 {
      var s := NatToDecimal(n);
      assert s[..|s| - 1] == NatToDecimal(n / 10);
      DecimalRoundTrip(n / 10);
    }
  }

  /** Every integer's text reads back as that integer, so distinct star
      ratings always render differently. */
  lemma IntegerRoundTrip(n: int)
    ensures ParseInteger(IntToString(n)) == Some(n)
  {
    var s := IntToString(n);
    if n < 0 {
      var digits := NatToDecimal(-n);
      assert s == "-" + digits;
      assert s[1..] == digits;
      DecimalRoundTrip(-n);
    } else {
      DecimalRoundTrip(n);
    }
  }

  // ---------------------------------------------------------------------------
  // Lists: Array.prototype.toString joins the elements with ','.

  function Join(items: seq<string>, sep: char): string {
    if |items| == 0 then ""
    else if |items| == 1 then items[0]
    else items[0] + [sep] + Join(items[1..], sep)
  }

  /** Cuts `s` at every occurrence of `sep`; the inverse reading of `Join`. */
  function Split(s: string, sep: char): (parts: seq<string>)
    ensures |parts| >= 1
  {
    if |s| == 0 then [""]
    else
      var rest := Split(s[1..], sep);
      if s[0] == sep then [""] + rest else [[s[0]] + rest[0]] + rest[1..]
  }

  lemma {:induction false} SplitWithout(s: string, sep: char)
    requires sep !in s
    ensures Split(s, sep) == [s]
  {
    if |s| > 0 {
      SplitWithout(s[1..], sep);
      assert [s[0]] + s[1..] == s;
    }
  }

  lemma {:induction false} SplitAfter(a: string, sep: char, b: string)
    requires sep !in a
    ensures Split(a + [sep] + b, sep) == [a] + Split(b, sep)
  {
    if |a| == 0 {
      assert a + [sep] + b == [sep] + b;
      assert ([sep] + b)[1..] == b;
    } else {
      assert (a + [sep] + b)[1..] == a[1..] + [sep] + b;
      SplitAfter(a[1..], sep, b);
      assert [a[0]] + a[1..] == a;
    }
  }

  /** A non-empty list whose items do not contain the separator is recovered
      from its joined text, so the text keeps every item, in order. */
  lemma {:induction false} JoinRoundTrip(items: seq<string>, sep: char)
    requires |items| >= 1
    requires forall i :: 0 <= i < |items| ==> sep !in items[i]
    ensures Split(Join(items, sep), sep) == items
  {
    if |items| == 1 {
      SplitWithout(items[0], sep);
    } else {
      JoinRoundTrip(items[1..], sep);
      SplitAfter(items[0], sep, Join(items[1..], sep));
      assert [items[0]] + items[1..] == items;
    }
  }
}
