/**
 * The JavaScript string built-ins the core relies on: whitespace as
 * `String.prototype.trim` and `Number.parseInt` see it, integer-to-decimal
 * conversion inside template literals, `Array.prototype.join`, and
 * `Number.parseInt(s, 10)`.
 */
module JsText {
  import opened Wrappers

  /** The WhiteSpace and LineTerminator code points of ECMAScript. */
  predicate IsWhitespace(c: char) {
    || c == '\t' || c == '\n' || c == '\U{B}' || c == '\U{C}' || c == '\r' || c == ' '
    || c == '\U{A0}' || c == '\U{1680}' || ('\U{2000}' <= c <= '\U{200A}')
    || c == '\U{2028}' || c == '\U{2029}' || c == '\U{202F}' || c == '\U{205F}'
    || c == '\U{3000}' || c == '\U{FEFF}'
  }

  predicate IsDigit(c: char) { '0' <= c <= '9' }

  /** No whitespace at either end. */
  predicate Trimmed(s: string) {
    s == [] || (!IsWhitespace(s[0]) && !IsWhitespace(s[|s| - 1]))
  }

  /** `s` with its leading whitespace removed. */
  function TrimStart(s: string): (r: string)
    ensures |r| <= |s|
  {
    if s != [] && IsWhitespace(s[0]) then TrimStart(s[1..]) else s
  }

  /** What `TrimStart` removes is whitespace, and what it keeps is a suffix that starts otherwise. */
  lemma {:induction false} TrimStartFacts(s: string)
    ensures var r := TrimStart(s);
            && r == s[|s| - |r|..]
            && (forall i :: 0 <= i < |s| - |r| ==> IsWhitespace(s[i]))
            && (r == [] || !IsWhitespace(r[0]))
            && (r == [] <==> forall i :: 0 <= i < |s| ==> IsWhitespace(s[i]))
  {
    if s != [] && IsWhitespace(s[0]) {
      TrimStartFacts(s[1..]);
    }
  }

  /** `s` with its trailing whitespace removed. */
  function TrimEnd(s: string): (r: string)
    ensures |r| <= |s|
  {
    if s != [] && IsWhitespace(s[|s| - 1]) then TrimEnd(s[..|s| - 1]) else s
  }

  /** What `TrimEnd` removes is whitespace, and what it keeps is a prefix that ends otherwise. */
  lemma {:induction false} TrimEndFacts(s: string)
    ensures var r := TrimEnd(s);
            && r == s[..|r|]
            && (forall i :: |r| <= i < |s| ==> IsWhitespace(s[i]))
            && (r == [] || !IsWhitespace(r[|r| - 1]))
            && (r == [] <==> forall i :: 0 <= i < |s| ==> IsWhitespace(s[i]))
  {
    if s != [] && IsWhitespace(s[|s| - 1]) {
      TrimEndFacts(s[..|s| - 1]);
      assert forall i :: 0 <= i < |s| - 1 ==> s[..|s| - 1][i] == s[i];
    }
  }

  /** `String.prototype.trim`. */
  function Trim(s: string): (r: string)
    ensures Trimmed(r) && |r| <= |s|
  {
    var t := TrimStart(s);
    TrimStartFacts(s);
    TrimEndFacts(t);
    TrimEnd(t)
  }

  lemma TrimOfTrimmed(s: string)
    requires Trimmed(s)
    ensures Trim(s) == s
  {
    assert TrimStart(s) == s;
  }

  /** Whitespace added at the front of a string does not survive a trim. */
  lemma TrimLeadingSpace(s: string)
    ensures Trim(" " + s) == Trim(s)
  {
    assert (" " + s)[1..] == s;
  }

  /** Whitespace added at the end of a string does not survive a trim. */
  lemma {:induction false} TrimTrailingSpace(s: string)
    ensures Trim(s + " ") == Trim(s)
  {
    var t := TrimStart(s);
    TrimStartFacts(s);
    TrimStartFacts(s + " ");
    if t == [] {
      assert forall i :: 0 <= i < |s + " "| ==> IsWhitespace((s + " ")[i]) by {
        forall i | 0 <= i < |s + " "| ensures IsWhitespace((s + " ")[i]) {
          if i < |s| { assert (s + " ")[i] == s[i]; }
        }
      }
    } else {
      TrimStartAppend(s, " ");
      assert (t + " ")[..|t|] == t;
    }
  }

  lemma {:induction false} TrimStartAppend(s: string, u: string)
    requires TrimStart(s) != []
    ensures TrimStart(s + u) == TrimStart(s) + u
    decreases |s|
  {
    if s != [] && IsWhitespace(s[0]) {
      assert (s + u)[1..] == s[1..] + u;
      TrimStartAppend(s[1..], u);
    }
  }

  function DigitChar(d: nat): char
    requires d < 10
  {
    "0123456789"[d]
  }

  function DigitValue(c: char): nat
    requires IsDigit(c)
  {
    (c as int - '0' as int) as nat
  }

  /** The decimal text of a natural number, without leading zeros. */
  function NatToString(n: nat): (r: string)
    ensures r != [] && forall i :: 0 <= i < |r| ==> IsDigit(r[i])
    decreases n
  {
    if n < 10 then [DigitChar(n)] else NatToString(n / 10) + [DigitChar(n % 10)]
  }

  /** The text JavaScript prints for an integer-valued number (`${n}`). */
  function IntToString(n: int): (r: string)
    ensures r != []
    ensures n < 0 <==> r[0] == '-'
  {
    if n < 0 then "-" + NatToString(-n) else NatToString(n)
  }

  /** The value of a run of decimal digits. */
  function DigitsValue(d: string): nat
    requires forall i :: 0 <= i < |d| ==> IsDigit(d[i])
  {
    if d == [] then 0 else DigitsValue(d[..|d| - 1]) * 10 + DigitValue(d[|d| - 1])
  }

  /** The longest prefix of `s` made of decimal digits. */
  function DigitPrefix(s: string): (r: string)
    ensures |r| <= |s|
  {
    if s != [] && IsDigit(s[0]) then [s[0]] + DigitPrefix(s[1..]) else []
  }

  /** The digit prefix is a prefix of digits that stops at the first non-digit. */
  lemma {:induction false} DigitPrefixFacts(s: string)
    ensures var r := DigitPrefix(s);
            && r == s[..|r|]
            && (forall i :: 0 <= i < |r| ==> IsDigit(r[i]))
            && (|r| < |s| ==> !IsDigit(s[|r|]))
  {
    if s != [] && IsDigit(s[0]) {
      DigitPrefixFacts(s[1..]);
    }
  }

  /**
   * `Number.parseInt(s, 10)`: skip leading whitespace, take one optional sign,
   * then the longest run of decimal digits; `None` stands for NaN (no digits).
   */
  function ParseInt(s: string): (r: Option<int>)
    ensures r.Some? ==> |s| > 0
  {
    var t := TrimStart(s);
    var digits := DigitPrefix(UnsignedPart(s));
    DigitPrefixFacts(UnsignedPart(s));
    if digits == [] then None
    else
      var magnitude: int := DigitsValue(digits);
      if t[0] == '-' then Some(-magnitude) else Some(magnitude)
  }

  /** What follows the leading whitespace and the optional sign. */
  function UnsignedPart(s: string): string {
    var t := TrimStart(s);
    if t != [] && (t[0] == '-' || t[0] == '+') then t[1..] else t
  }

  /** `Array.prototype.join(sep)`. */
  function Join(sep: string, items: seq<string>): string {
    if items == [] then ""
    else if |items| == 1 then items[0]
    else items[0] + sep + Join(sep, items[1..])
  }

  /** Joining one more item appends the separator and the item. */
  lemma {:induction false} JoinAppend(sep: string, items: seq<string>, x: string)
    ensures Join(sep, items + [x]) == if items == [] then x else Join(sep, items) + sep + x
  {
    if |items| > 1 {
      assert (items + [x])[1..] == items[1..] + [x];
      JoinAppend(sep, items[1..], x);
    } else if |items| == 1 {
      assert (items + [x])[1..] == [x];
    }
  }

  lemma {:induction false} DigitsValueOfNatToString(n: nat)
    ensures DigitsValue(NatToString(n)) == n
    decreases n
  {
    var s := NatToString(n);
    if n >= 10 {
      DigitsValueOfNatToString(n / 10);
      assert s[..|s| - 1] == NatToString(n / 10);
    }
  }

  lemma {:induction false} DigitPrefixOfDigits(d: string, u: string)
    requires forall i :: 0 <= i < |d| ==> IsDigit(d[i])
    requires u == [] || !IsDigit(u[0])
    ensures DigitPrefix(d + u) == d
    decreases |d|
  {
    if d != [] {
      assert (d + u)[1..] == d[1..] + u;
      DigitPrefixOfDigits(d[1..], u);
    }
  }

  /**
   * Round trip: parsing the decimal text of any integer, followed by a unit
   * suffix that does not start with a digit (`"px"`, `"rem"`, or nothing),
   * gives back that integer.
   */
  lemma {:induction false} ParseIntOfIntToString(n: int, unit: string)
    requires unit == [] || !IsDigit(unit[0])
    ensures ParseInt(IntToString(n) + unit) == Some(n)
  {
    var s := IntToString(n) + unit;
    var m: nat := if n < 0 then -n else n;
    var d := NatToString(m);
    assert !IsWhitespace(s[0]) by {
      if n < 0 { assert s[0] == '-'; } else { assert IsDigit(s[0]); }
    }
    assert TrimStart(s) == s;
    if n < 0 {
      assert UnsignedPart(s) == d + unit by { assert s == "-" + (d + unit); }
    } else {
      assert UnsignedPart(s) == d + unit;
    }
    DigitPrefixOfDigits(d, unit);
    DigitsValueOfNatToString(m);
  }
}
