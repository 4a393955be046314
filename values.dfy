/** The Python values found in parsed metadata and how the engine turns them
    into text: truthiness, `str()` and the `02d` format. */
module Values {
  import opened Common

  /** A metadata value as a name parser or an override delivers it. */
  datatype Value = Null | Bool(b: bool) | Int(i: int) | Str(s: string) | List(items: seq<Value>)

  /** Python truthiness: `None`, `False`, `0`, `""` and `[]` are falsy. */
  predicate Truthy(v: Value)
  {
    match v
    case Null => false
    case Bool(b) => b
    case Int(i) => i != 0
    case Str(s) => s != ""
    case List(items) => items != []
  }

  predicate IsDigit(c: char)
  {
    '0' <= c <= '9'
  }

  predicate AllDigits(s: string)
  {
    forall k :: 0 <= k < |s| ==> IsDigit(s[k])
  }

  function DigitChar(d: nat): char
    requires d < 10
  {
    ('0' as int + d) as char
  }

  function DigitValue(c: char): nat
    requires IsDigit(c)
  {
    (c as int - '0' as int) as nat
  }

  /** Decimal digits of a natural number, most significant first, no leading zero. */
  function Digits(n: nat): string
    decreases n
  {
    if n < 10 then [DigitChar(n)] else Digits(n / 10) + [DigitChar(n % 10)]
  }

  /** `str(i)` of an integer. */
  function IntToString(i: int): string
  {
    if i < 0 then "-" + Digits(-i) else Digits(i)
  }

  /** `format(i, "02d")`: at least two characters, zero-padded on the left;
      a negative number already has two characters. */
  function Pad2(i: int): string
  {
    if i < 0 then "-" + Digits(-i)
    else if i < 10 then "0" + Digits(i)
    else Digits(i)
  }

  /** The integer `format(v, "02d")` accepts: `bool` is an `int` in Python. */
  function AsInt(v: Value): Option<int>
  {
    match v
    case Int(i) => Some(i)
    case Bool(b) => Some(if b then 1 else 0)
    case _ => None
  }

  /** `str(v)`. */
  function Display(v: Value): string
    decreases v, 1
  {
    match v
    case Null => "None"
    case Bool(b) => if b then "True" else "False"
    case Int(i) => IntToString(i)
    case Str(s) => s
    case List(items) => "[" + ReprItems(items) + "]"
  }

  /** `repr(v)`, as it appears inside a list's `str()`. */
  function Repr(v: Value): string
    decreases v, 2
  {
    if v.Str? then "'" + v.s + "'" else Display(v)
  }

  function ReprItems(items: seq<Value>): string
    decreases items, 0
  {
    if items == [] then ""
    else if |items| == 1 then Repr(items[0])
    else Repr(items[0]) + ", " + ReprItems(items[1..])
  }

  /** The template `f"{title} ({year})"` of movie folders and of show folders
      that have a year. */
  function TitleAndYear(title: Value, year: Value): string
  {
    Display(title) + " (" + Display(year) + ")"
  }

  // ---------------------------------------------------------------------
  // Reading numbers back
  // ---------------------------------------------------------------------

  /** The value of a string of digits. */
  function ParseDigits(s: string): nat
    requires AllDigits(s)
  {
    if s == [] then 0 else ParseDigits(s[..|s| - 1]) * 10 + DigitValue(s[|s| - 1])
  }

  /** Length of the run of digits that starts `s`. */
  function DigitRun(s: string): (k: nat)
    ensures k <= |s| && AllDigits(s[..k])
    ensures k < |s| ==> !IsDigit(s[k])
  {
    if s != [] && IsDigit(s[0]) then
      var k := DigitRun(s[1..]) + 1;
      assert s[..k] == [s[0]] + s[1..][..k - 1];
      k
    else 0
  }

  /** Reads an optional minus sign and a non-empty run of digits; yields the
      number and what follows it. */
  function ReadInt(s: string): Option<(int, string)>
  {
    if s != [] && s[0] == '-' then
      var k := DigitRun(s[1..]);
      if k == 0 then None else Some((-(ParseDigits(s[1..][..k]) as int), s[1..][k..]))
    else
      var k := DigitRun(s);
      if k == 0 then None else Some((ParseDigits(s[..k]), s[k..]))
  }

  lemma {:induction false} DigitsShape(n: nat)
    ensures AllDigits(Digits(n)) && |Digits(n)| >= 1
    ensures |Digits(n)| == 1 <==> n < 10
    ensures |Digits(n)| == 2 <==> 10 <= n < 100
    ensures n >= 10 ==> Digits(n)[0] != '0'
    decreases n
  {
    if n >= 10 {
      DigitsShape(n / 10);
    }
  }

  lemma {:induction false} ParseDigitsOfDigits(n: nat)
    ensures AllDigits(Digits(n)) && ParseDigits(Digits(n)) == n
    decreases n
  {
    DigitsShape(n);
    if n >= 10 {
      ParseDigitsOfDigits(n / 10);
      var d := Digits(n);
      assert d[..|d| - 1] == Digits(n / 10);
    }
  }

  /** A leading zero does not change the value read. */
  lemma {:induction false} ParseDigitsLeadingZero(s: string)
    requires AllDigits(s)
    ensures AllDigits("0" + s) && ParseDigits("0" + s) == ParseDigits(s)
    decreases |s|
  {
    if s != [] {
      var t := "0" + s;
      assert t[..|t| - 1] == "0" + s[..|s| - 1];
      ParseDigitsLeadingZero(s[..|s| - 1]);
    }
  }

  /** A digit run followed by a non-digit stops exactly at the non-digit. */
  lemma {:induction false} DigitRunOfDigits(a: string, t: string)
    requires AllDigits(a) && (t == [] || !IsDigit(t[0]))
    ensures DigitRun(a + t) == |a|
    decreases |a|
  {
    if a != [] {
      assert (a + t)[1..] == a[1..] + t;
      DigitRunOfDigits(a[1..], t);
    }
  }

  lemma ReadAllDigits(a: string, t: string)
    requires AllDigits(a) && a != [] && (t == [] || !IsDigit(t[0]))
    ensures ReadInt(a + t) == Some((ParseDigits(a), t))
  {
    DigitRunOfDigits(a, t);
    assert (a + t)[..|a|] == a && (a + t)[|a|..] == t;
  }

  lemma ReadNegative(n: nat, t: string)
    requires n > 0 && (t == [] || !IsDigit(t[0]))
    ensures ReadInt("-" + Digits(n) + t) == Some((-(n as int), t))
  {
    var d := Digits(n);
    ParseDigitsOfDigits(n);
    var s := "-" + d + t;
    assert s[1..] == d + t;
    ReadAllDigits(d, t);
  }

  lemma ReadPadded(n: nat, t: string)
    requires n < 10 && (t == [] || !IsDigit(t[0]))
    ensures ReadInt("0" + Digits(n) + t) == Some((n, t))
  {
    var d := Digits(n);
    ParseDigitsOfDigits(n);
    ParseDigitsLeadingZero(d);
    assert "0" + d + t == ("0" + d) + t;
    ReadAllDigits("0" + d, t);
  }

  /** Round trip: reading a `02d`-formatted number back gives the number and
      leaves whatever followed it, for every integer. */
  lemma Pad2ReadBack(i: int, t: string)
    requires t == [] || !IsDigit(t[0])
    ensures ReadInt(Pad2(i) + t) == Some((i, t))
  {
    if i < 0 {
      ReadNegative(-i, t);
    } else if i < 10 {
      ReadPadded(i, t);
    } else {
      ParseDigitsOfDigits(i);
      ReadAllDigits(Digits(i), t);
    }
  }

  /** `02d` pads to at least two characters: exactly two for 0..99, and from
      10 on it is the number's own decimal text, never truncated. */
  lemma Pad2Width(i: int)
    ensures |Pad2(i)| >= 2
    ensures 0 <= i < 100 <==> (|Pad2(i)| == 2 && Pad2(i)[0] != '-')
    ensures i >= 10 ==> Pad2(i) == IntToString(i)
    ensures 0 <= i < 10 ==> Pad2(i) == "0" + [DigitChar(i)]
  {
    if i < 0 {
      DigitsShape(-i);
    } else {
      DigitsShape(i);
    }
  }
}
