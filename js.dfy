/** The JavaScript primitives the route handlers lean on, restricted to what
    the model needs: dynamic values and their truthiness, `String(v)`,
    `Number(v)`, `parseInt(v, 10)`, `String.prototype.trim`, upper-casing and
    the decimal rendering of integers. */
module Js {

  datatype Option<+T> = None | Some(value: T)

  datatype Result<+T, +E> = Ok(value: T) | Err(error: E)

  /** A value as it arrives from a JSON body, a query string or a database row.
      Numbers are integers (see README, "Left out"). */
  datatype Value = Undefined | Null | Bool(b: bool) | Num(n: int) | Str(s: string)

  /** A value bound to a named SQL placeholder. `Number("abc")` binds NaN. */
  datatype SqlParam = PStr(s: string) | PNum(n: int) | PNaN

  /** `if (v)`: the falsy values are undefined, null, false, 0 and "". */
  predicate Truthy(v: Value) {
    match v
    case Undefined => false
    case Null => false
    case Bool(b) => b
    case Num(n) => n != 0
    case Str(s) => s != ""
  }

  /** `a || b`: the first operand when it is truthy, else the second. */
  function OrElse(a: Value, b: Value): (r: Value)
    ensures Truthy(a) ==> r == a
    ensures !Truthy(a) ==> r == b
  {
    if Truthy(a) then a else b
  }

  /** A destructuring default `{ x = d } = obj`: `d` only when the field
      is absent. */
  function Default(v: Value, d: Value): (r: Value)
    ensures v.Undefined? ==> r == d
    ensures !v.Undefined? ==> r == v
  {
    if v.Undefined? then d else v
  }

  // ---------------------------------------------------------------------------
  // Characters

  /** ECMAScript WhiteSpace and LineTerminator code points: the class `\s`
      and the characters `trim()` removes. */
  const Spaces: set<char> := {
    '\t', '\n', '\U{B}', '\U{C}', '\r', ' ', '\U{A0}', '\U{1680}',
    '\U{2000}', '\U{2001}', '\U{2002}', '\U{2003}', '\U{2004}', '\U{2005}',
    '\U{2006}', '\U{2007}', '\U{2008}', '\U{2009}', '\U{200A}',
    '\U{2028}', '\U{2029}', '\U{202F}', '\U{205F}', '\U{3000}', '\U{FEFF}'
  }

  predicate IsDigit(c: char) { '0' <= c <= '9' }

  predicate IsUpperLetter(c: char) { 'A' <= c <= 'Z' }

  predicate IsLowerLetter(c: char) { 'a' <= c <= 'z' }

  function UpperChar(c: char): (r: char)
    ensures !IsLowerLetter(r)
    ensures !IsLowerLetter(c) ==> r == c
    ensures IsLowerLetter(c) ==> IsUpperLetter(r) && r as int == c as int - 32
    ensures r in Spaces <==> c in Spaces
  {
    if IsLowerLetter(c) then (c as int - 'a' as int + 'A' as int) as char else c
  }

  /** `s.toUpperCase()` on the ASCII letters. */
  function Upper(s: string): (r: string)
    ensures |r| == |s|
    ensures forall i :: 0 <= i < |s| ==> r[i] == UpperChar(s[i])
  {
    seq(|s|, i requires 0 <= i < |s| => UpperChar(s[i]))
  }

  // ---------------------------------------------------------------------------
  // trim()

  /** Index of the first character of `s` that is not white space. */
  function TrimStartIndex(s: string): (i: nat)
    ensures i <= |s|
    ensures forall k :: 0 <= k < i ==> s[k] in Spaces
    ensures i < |s| ==> s[i] !in Spaces
  {
    if s == [] || s[0] !in Spaces then 0 else 1 + TrimStartIndex(s[1..])
  }

  /** One past the last character of `s` that is not white space. */
  function TrimEndIndex(s: string): (j: nat)
    ensures j <= |s|
    ensures forall k :: j <= k < |s| ==> s[k] in Spaces
    ensures 0 < j ==> s[j - 1] !in Spaces
  {
    if s == [] || s[|s| - 1] !in Spaces then |s| else TrimEndIndex(s[..|s| - 1])
  }

  /** Made only of white space (or empty). */
  predicate Blank(s: string) {
    forall k :: 0 <= k < |s| ==> s[k] in Spaces
  }

  /** `s.trim()`. */
  function Trim(s: string): (r: string)
    ensures r == "" <==> Blank(s)
    ensures r != "" ==> r[0] !in Spaces && r[|r| - 1] !in Spaces
    ensures (forall k :: 0 <= k < |s| ==> s[k] !in Spaces) ==> r == s
    ensures TrimStartIndex(s) + |r| <= |s|
    ensures forall k :: 0 <= k < |r| ==> r[k] == s[TrimStartIndex(s) + k]
    ensures forall k :: TrimStartIndex(s) + |r| <= k < |s| ==> s[k] in Spaces
  {
    var i := TrimStartIndex(s);
    var j := TrimEndIndex(s);
    if j <= i then "" else s[i..j]
  }

  // ---------------------------------------------------------------------------
  // Decimal rendering: `String(n)` and the template `p${i}`

  function DigitChar(d: nat): (c: char)
    requires d < 10
    ensures IsDigit(c)
  {
    ('0' as int + d) as char
  }

  function DigitValue(c: char): (d: nat)
    requires IsDigit(c)
    ensures d < 10
  {
    c as int - '0' as int
  }

  /** `String(n)` for a non-negative integer: its decimal digits. */
  function NatToString(n: nat): (r: string)
    ensures |r| >= 1
    ensures forall i :: 0 <= i < |r| ==> IsDigit(r[i])
    ensures |r| == 1 <==> n < 10
  {
    if n < 10 then [DigitChar(n)] else NatToString(n / 10) + [DigitChar(n % 10)]
  }

  /** `String(n)` for any integer. */
  function IntToString(n: int): (r: string)
    ensures |r| >= 1
  {
    if n < 0 then "-" + NatToString(-n) else NatToString(n)
  }

  /** Two different numbers never render to the same digits. */
  lemma {:induction false} NatToStringInjective(a: nat, b: nat)
    requires NatToString(a) == NatToString(b)
    ensures a == b
  {
    if a >= 10 && b >= 10 {
      var sa, sb := NatToString(a), NatToString(b);
      assert sa[|sa| - 1] == DigitChar(a % 10) && sb[|sb| - 1] == DigitChar(b % 10);
      assert a % 10 == b % 10;
      assert sa[..|sa| - 1] == NatToString(a / 10);
      assert sb[..|sb| - 1] == NatToString(b / 10);
      NatToStringInjective(a / 10, b / 10);
    }
  }

  // ---------------------------------------------------------------------------
  // parseInt(s, 10) and Number(v)

  /** Length of the run of decimal digits at the start of `s`. */
  function DigitRun(s: string): (k: nat)
    ensures k <= |s|
    ensures forall i :: 0 <= i < k ==> IsDigit(s[i])
    ensures k < |s| ==> !IsDigit(s[k])
  {
    if s == [] || !IsDigit(s[0]) then 0 else 1 + DigitRun(s[1..])
  }

  /** The value of a string of decimal digits, read left to right. */
  function DigitsValue(ds: string): nat
    requires forall i :: 0 <= i < |ds| ==> IsDigit(ds[i])
  {
    if ds == [] then 0 else DigitsValue(ds[..|ds| - 1]) * 10 + DigitValue(ds[|ds| - 1])
  }

  /** Sign and digits with nothing after them, as `Number` reads a decimal integer. */
  function ParseSignedDigits(t: string): (r: Option<int>)
  {
    var neg := |t| > 0 && t[0] == '-';
    var u := if |t| > 0 && (t[0] == '-' || t[0] == '+') then t[1..] else t;
    if u != [] && DigitRun(u) == |u| then
      var m: int := DigitsValue(u);
      Some(if neg then -m else m)
    else None
  }

  /** `u` without one leading sign. */
  function Unsigned(u: string): string {
    if |u| > 0 && (u[0] == '-' || u[0] == '+') then u[1..] else u
  }

  /** What `parseInt` reads after the white space: an optional sign and then
      as many decimal digits as there are; no digit at all is NaN (None). */
  function ParseSigned(u: string): (r: Option<int>)
    ensures r.None? <==> DigitRun(Unsigned(u)) == 0
  {
    var v := Unsigned(u);
    var k := DigitRun(v);
    if k == 0 then None
    else
      var m: int := DigitsValue(v[..k]);
      Some(if |u| > 0 && u[0] == '-' then -m else m)
  }

  /** `parseInt(s, 10)`: skip leading white space, then read as `ParseSigned`. */
  function ParseInt(s: string): (r: Option<int>)
    ensures r.None? <==> DigitRun(Unsigned(s[TrimStartIndex(s)..])) == 0
  {
    ParseSigned(s[TrimStartIndex(s)..])
  }

  /** `parseInt(String(v), 10) || d`: NaN and 0 fall back to `d`. */
  function ParseIntOr(v: Value, d: int): (r: int)
    ensures var p := ParseInt(ToStr(v));
            r == if p.Some? && p.value != 0 then p.value else d
  {
    match ParseInt(ToStr(v))
    case None => d
    case Some(n) => if n == 0 then d else n
  }

  lemma {:induction false} DigitsValueOfNatToString(n: nat)
    ensures DigitsValue(NatToString(n)) == n
  {
    var s := NatToString(n);
    if n >= 10 {
      assert s[..|s| - 1] == NatToString(n / 10);
      DigitsValueOfNatToString(n / 10);
    }
  }

  /** `parseInt` reads a whole run of digits. */
  lemma {:induction false} ParseIntOfDigits(ds: string)
    requires ds != [] && forall i :: 0 <= i < |ds| ==> IsDigit(ds[i])
    ensures ParseInt(ds) == Some(DigitsValue(ds))
  {
    assert DigitRun(ds) == |ds|;
    assert ds[..|ds|] == ds;
    assert TrimStartIndex(ds) == 0;
    assert ds[0..] == ds;
  }

  /** ... and the same run after a minus sign. */
  lemma {:induction false} ParseIntOfNegDigits(ds: string)
    requires ds != [] && forall i :: 0 <= i < |ds| ==> IsDigit(ds[i])
    ensures ParseInt("-" + ds) == Some(-(DigitsValue(ds) as int))
  {
    var t := "-" + ds;
    assert DigitRun(ds) == |ds|;
    assert ds[..|ds|] == ds;
    assert TrimStartIndex(t) == 0;
    assert t[0..] == t && t[1..] == ds;
  }

  /** Leading white space is skipped up to the first other character. */
  lemma {:induction false} TrimStartIndexOf(ws: string, x: string)
    requires Blank(ws) && x != [] && x[0] !in Spaces
    ensures TrimStartIndex(ws + x) == |ws|
  {
    if ws != [] {
      assert (ws + x)[1..] == ws[1..] + x;
      TrimStartIndexOf(ws[1..], x);
    } else {
      assert ws + x == x;
    }
  }

  /** The digit run of digits followed by a non-digit is the digits. */
  lemma {:induction false} DigitRunOf(ds: string, rest: string)
    requires forall i :: 0 <= i < |ds| ==> IsDigit(ds[i])
    requires rest == [] || !IsDigit(rest[0])
    ensures DigitRun(ds + rest) == |ds|
  {
    if ds != [] {
      assert (ds + rest)[1..] == ds[1..] + rest;
      DigitRunOf(ds[1..], rest);
    } else {
      assert ds + rest == rest;
    }
  }

  /** `parseInt` skips leading white space. */
  lemma ParseIntAfterBlanks(ws: string, x: string)
    requires Blank(ws) && x != [] && x[0] !in Spaces
    ensures ParseInt(ws + x) == ParseSigned(x)
  {
    TrimStartIndexOf(ws, x);
    assert (ws + x)[|ws|..] == x;
  }

  /** A run of `k > 0` digits reads as its value ... */
  lemma ParseSignedRun(y: string, k: nat)
    requires 0 < k <= |y| && DigitRun(y) == k
    ensures ParseSigned(y) == Some(DigitsValue(y[..k]))
  {
  }

  /** A minus sign negates the digits after it. */
  lemma ParseSignedMinus(x: string)
    requires |x| > 0 && x[0] == '-' && DigitRun(x[1..]) > 0
    ensures ParseSigned(x) == Some(-(DigitsValue(x[1..][..DigitRun(x[1..])]) as int))
  {
  }

  /** A plus sign leaves the digits after it as they are. */
  lemma ParseSignedPlus(x: string)
    requires |x| > 0 && x[0] == '+' && DigitRun(x[1..]) > 0
    ensures ParseSigned(x) == Some(DigitsValue(x[1..][..DigitRun(x[1..])]))
  {
  }

  /** A sign is not white space. */
  lemma SignNotSpace(c: char)
    requires c == '-' || c == '+'
    ensures c !in Spaces
  {
  }

  /** `parseInt` of white space and then a string `y` that starts with a run
      of `k > 0` decimal digits: the value of those digits, whatever follows
      them ... */
  lemma ParseIntValue(ws: string, y: string, k: nat)
    requires Blank(ws) && 0 < k <= |y| && DigitRun(y) == k
    ensures ParseInt(ws + y) == Some(DigitsValue(y[..k]))
  {
    DigitNotSpace(y[0]);
    ParseSignedRun(y, k);
    ParseIntAfterBlanks(ws, y);
  }

  /** ... negated after a minus sign ... */
  lemma ParseIntValueNeg(ws: string, x: string, k: nat)
    requires Blank(ws) && 0 < k < |x| && x[0] == '-' && DigitRun(x[1..]) == k
    ensures ParseInt(ws + x) == Some(-(DigitsValue(x[1..k + 1]) as int))
  {
    ParseSignedMinus(x);
    assert x[1..][..k] == x[1..k + 1];
    SignNotSpace(x[0]);
    ParseIntAfterBlanks(ws, x);
  }

  /** ... and unchanged after a plus sign. */
  lemma ParseIntValuePos(ws: string, x: string, k: nat)
    requires Blank(ws) && 0 < k < |x| && x[0] == '+' && DigitRun(x[1..]) == k
    ensures ParseInt(ws + x) == Some(DigitsValue(x[1..k + 1]))
  {
    ParseSignedPlus(x);
    assert x[1..][..k] == x[1..k + 1];
    SignNotSpace(x[0]);
    ParseIntAfterBlanks(ws, x);
  }

  /** `parseInt(String(n), 10)` gives `n` back. */
  lemma ParseIntOfIntToString(n: int)
    ensures ParseInt(IntToString(n)) == Some(n)
  {
    var m: nat := if n < 0 then -n else n;
    DigitsValueOfNatToString(m);
    if n < 0 {
      ParseIntOfNegDigits(NatToString(m));
    } else {
      ParseIntOfDigits(NatToString(m));
    }
  }

  /** `String(v)`. */
  function ToStr(v: Value): string {
    match v
    case Undefined => "undefined"
    case Null => "null"
    case Bool(b) => if b then "true" else "false"
    case Num(n) => IntToString(n)
    case Str(s) => s
  }

  /** `Number(v)` when the result is finite (Some), NaN or infinite (None).
      A string is trimmed first; the empty string is 0. */
  function ToNumber(v: Value): (r: Option<int>)
    ensures v.Num? ==> r == Some(v.n)
    ensures v.Undefined? ==> r.None?
    ensures v.Null? ==> r == Some(0)
    ensures v.Bool? ==> r == Some(if v.b then 1 else 0)
    ensures v.Str? && Blank(v.s) ==> r == Some(0)
  {
    match v
    case Undefined => None
    case Null => Some(0)
    case Bool(b) => Some(if b then 1 else 0)
    case Num(n) => Some(n)
    case Str(s) => var t := Trim(s); if t == "" then Some(0) else ParseSignedDigits(t)
  }

  /** A decimal digit is not white space. */
  lemma DigitNotSpace(c: char)
    requires IsDigit(c)
    ensures c !in Spaces
  {
  }

  /** `String(n)` holds no white space. */
  lemma IntToStringNoSpace(n: int)
    ensures forall k :: 0 <= k < |IntToString(n)| ==> IntToString(n)[k] !in Spaces
  {
    var t := IntToString(n);
    var ds := NatToString(if n < 0 then -n else n);
    forall k | 0 <= k < |t|
      ensures t[k] !in Spaces
    {
      if n >= 0 {
        DigitNotSpace(ds[k]);
      } else if k > 0 {
        assert t[k] == ds[k - 1];
        DigitNotSpace(ds[k - 1]);
      }
    }
  }

  /** The sign and digits of `String(n)` read back as `n`. */
  lemma SignedDigitsOfIntToString(n: int)
    ensures ParseSignedDigits(IntToString(n)) == Some(n)
  {
    var m: nat := if n < 0 then -n else n;
    var ds := NatToString(m);
    DigitsValueOfNatToString(m);
    assert DigitRun(ds) == |ds|;
    if n < 0 {
      var t := IntToString(n);
      assert t[0] == '-' && t[1..] == ds;
    }
  }

  /** `Number(String(n))` gives `n` back. */
  lemma ToNumberOfIntToString(n: int)
    ensures ToNumber(Str(IntToString(n))) == Some(n)
  {
    IntToStringNoSpace(n);
    SignedDigitsOfIntToString(n);
  }

  // ---------------------------------------------------------------------------
  // UTF-16: JavaScript strings are sequences of 16-bit code units

  /** The UTF-16 code units of one code point: one unit below U+10000, else
      a high and a low surrogate. */
  function CodeUnits(c: char): (u: seq<int>)
    ensures 1 <= |u| <= 2
    ensures forall i :: 0 <= i < |u| ==> 0 <= u[i] < 0x1_0000
    ensures c as int < 0x1_0000 ==> u == [c as int]
    ensures |u| == 2 <==> 0xDC00 <= u[|u| - 1] < 0xE000
  {
    if c as int < 0x1_0000 then [c as int]
    else
      var v := c as int - 0x1_0000;
      [0xD800 + v / 0x400, 0xDC00 + v % 0x400]
  }

  /** The code units of a string, in order: what `s.length`, `charCodeAt`,
      `slice` and `<` work on. */
  function Utf16(s: string): (u: seq<int>)
    ensures |u| >= |s|
    ensures forall i :: 0 <= i < |u| ==> 0 <= u[i] < 0x1_0000
  {
    if s == [] then []
    else Utf16(s[..|s| - 1]) + CodeUnits(s[|s| - 1])
  }

  /** Different code points have different code units. */
  lemma CodeUnitsInjective(c: char, d: char)
    requires CodeUnits(c) == CodeUnits(d)
    ensures c == d
  {
    if c as int >= 0x1_0000 {
      var v, w := c as int - 0x1_0000, d as int - 0x1_0000;
      assert v / 0x400 == w / 0x400 && v % 0x400 == w % 0x400;
      assert v == 0x400 * (v / 0x400) + v % 0x400;
      assert w == 0x400 * (w / 0x400) + w % 0x400;
    }
  }

  /** Equal concatenations with equally long second halves have equal halves. */
  lemma AppendCancel(x: seq<int>, u: seq<int>, y: seq<int>, v: seq<int>)
    requires x + u == y + v && |u| == |v|
    ensures x == y && u == v
  {
    assert x == (x + u)[..|x|] && y == (y + v)[..|y|];
    assert u == (x + u)[|x|..] && v == (y + v)[|y|..];
  }

  /** The last code unit tells whether a code point takes one unit or two. */
  lemma SameUnitCount(x: seq<int>, c: char, y: seq<int>, d: char)
    requires x + CodeUnits(c) == y + CodeUnits(d)
    ensures |CodeUnits(c)| == |CodeUnits(d)|
  {
    var u, v := CodeUnits(c), CodeUnits(d);
    assert (x + u)[|x + u| - 1] == u[|u| - 1];
    assert (y + v)[|y + v| - 1] == v[|v| - 1];
  }

  /** Two strings with the same code units are the same string. */
  lemma {:induction false} Utf16Injective(a: string, b: string)
    requires Utf16(a) == Utf16(b)
    ensures a == b
    decreases |a|
  {
    if a != [] && b != [] {
      var n, m := |a| - 1, |b| - 1;
      SameLast(a, b);
      Utf16Injective(a[..n], b[..m]);
      assert a == a[..n] + [a[n]] && b == b[..m] + [b[m]];
    }
  }

  /** Equal code units end in the same character, after equal code units. */
  lemma SameLast(a: string, b: string)
    requires a != [] && b != [] && Utf16(a) == Utf16(b)
    ensures Utf16(a[..|a| - 1]) == Utf16(b[..|b| - 1]) && a[|a| - 1] == b[|b| - 1]
  {
    var n, m := |a| - 1, |b| - 1;
    SameUnitCount(Utf16(a[..n]), a[n], Utf16(b[..m]), b[m]);
    AppendCancel(Utf16(a[..n]), CodeUnits(a[n]), Utf16(b[..m]), CodeUnits(b[m]));
    CodeUnitsInjective(a[n], b[m]);
  }

  /** The code units of a string are those of its first character, then
      those of the rest. */
  lemma {:induction false} Utf16Cons(c: char, s: string)
    ensures Utf16([c] + s) == CodeUnits(c) + Utf16(s)
    decreases |s|
  {
    if s == [] {
      assert ([c] + s)[..0] == [];
    } else {
      var n := |s| - 1;
      assert ([c] + s)[..|s|] == [c] + s[..n];
      Utf16Cons(c, s[..n]);
    }
  }

  /** Two different code points differ at a code unit both of them have. */
  lemma CodeUnitsDiffer(c: char, d: char) returns (i: nat)
    requires c != d
    ensures i < |CodeUnits(c)| && i < |CodeUnits(d)| && CodeUnits(c)[i] != CodeUnits(d)[i]
  {
    if CodeUnits(c)[0] != CodeUnits(d)[0] {
      i := 0;
    } else {
      i := 1;
      if CodeUnits(c)[1] == CodeUnits(d)[1] {
        CodeUnitsInjective(c, d);
      }
    }
  }

  /** The code units of a concatenation are those of its halves. */
  lemma {:induction false} Utf16Append(a: string, b: string)
    ensures Utf16(a + b) == Utf16(a) + Utf16(b)
    decreases |b|
  {
    if b == [] {
      assert a + b == a;
    } else {
      var n := |b| - 1;
      assert (a + b)[..|a + b| - 1] == a + b[..n];
      Utf16Append(a, b[..n]);
    }
  }

  /** Below U+10000 every character is one code unit, its own value. */
  lemma {:induction false} Utf16Basic(s: string)
    requires forall i :: 0 <= i < |s| ==> s[i] as int < 0x1_0000
    ensures |Utf16(s)| == |s|
    ensures forall i :: 0 <= i < |s| ==> Utf16(s)[i] == s[i] as int
    decreases |s|
  {
    if s != [] {
      Utf16Basic(s[..|s| - 1]);
    }
  }

  /** When the first `k` characters lie below U+10000, the first `k` code
      units are exactly theirs: `slice(0, k)` cuts no surrogate pair. */
  lemma Utf16OfPrefix(t: string, k: nat)
    requires k <= |t|
    requires forall i :: 0 <= i < k ==> t[i] as int < 0x1_0000
    ensures k <= |Utf16(t)| && Utf16(t[..k]) == Utf16(t)[..k]
  {
    assert t == t[..k] + t[k..];
    Utf16Append(t[..k], t[k..]);
    Utf16Basic(t[..k]);
  }

  /** The last code unit of a non-empty string is a given character below
      U+10000 exactly when its last character is that character: a last
      character above U+FFFF ends in a low surrogate, which is no character. */
  lemma Utf16Last(s: string, x: char)
    requires s != [] && x as int < 0x1_0000
    ensures var u := Utf16(s); u != [] && (u[|u| - 1] == x as int <==> s[|s| - 1] == x)
  {
    var n := |s| - 1;
    var c := CodeUnits(s[n]);
    assert Utf16(s) == Utf16(s[..n]) + c;
    assert Utf16(s)[|Utf16(s)| - 1] == c[|c| - 1];
  }

  /** At most one code unit: the empty string or one character below U+10000. */
  lemma Utf16Short(s: string)
    ensures |Utf16(s)| <= 1 <==> s == [] || (|s| == 1 && s[0] as int < 0x1_0000)
  {
    if |s| == 1 {
      assert s[..0] == [];
    }
  }

  function Max(a: int, b: int): int { if a < b then b else a }

  function Min(a: int, b: int): int { if a < b then a else b }
}
