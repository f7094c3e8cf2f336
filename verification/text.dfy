/** ASCII string handling as the browser code uses it: `trim`, `toLowerCase`,
    `includes`, `toString` of integers and money, and the two JavaScript number
    conversions the form validators rely on (`Number`, which `isNaN` applies,
    and `parseInt`/`parseFloat`). Strings are sequences of ASCII characters. */
module Text {
  import opened Prelude

  // ---------------------------------------------------------------------------
  // White space and trimming

  /** The ASCII characters that `String.prototype.trim` and `Number` skip. */
  predicate IsSpace(c: char) {
    c == ' ' || c == '\t' || c == '\n' || c == '\U{000B}' || c == '\U{000C}' || c == '\r'
  }

  /** Every character is white space (this includes the empty string). */
  predicate IsBlank(s: string) {
    forall i :: 0 <= i < |s| ==> IsSpace(s[i])
  }

  /** `s` with its leading white space removed. */
  function TrimStart(s: string): (r: string)
    ensures |r| <= |s| && r == s[|s| - |r|..]
    ensures |r| > 0 ==> !IsSpace(r[0])
    ensures forall i :: 0 <= i < |s| - |r| ==> IsSpace(s[i])
  {
    if |s| > 0 && IsSpace(s[0]) then TrimStart(s[1..]) else s
  }

  /** `s` with its trailing white space removed. */
  function TrimEnd(s: string): (r: string)
    ensures |r| <= |s| && r == s[..|r|]
    ensures |r| > 0 ==> !IsSpace(r[|r| - 1])
    ensures forall i :: |r| <= i < |s| ==> IsSpace(s[i])
  {
    if |s| > 0 && IsSpace(s[|s| - 1]) then TrimEnd(s[..|s| - 1]) else s
  }

  /** JavaScript's `s.trim()`. */
  function Trim(s: string): string {
    TrimEnd(TrimStart(s))
  }

  /** Trimming leaves nothing exactly when the string is blank. */
  lemma TrimEmptyIffBlank(s: string)
    ensures Trim(s) == "" <==> IsBlank(s)
  {
    var t := TrimStart(s);
    assert |t| > 0 ==> |TrimEnd(t)| > 0;
  }

  /** A string without white space is its own trim. */
  lemma TrimWithoutSpace(s: string)
    requires forall i :: 0 <= i < |s| ==> !IsSpace(s[i])
    ensures Trim(s) == s
  {
  }

  // ---------------------------------------------------------------------------
  // Case and substring search

  predicate IsUpper(c: char) {
    'A' <= c <= 'Z'
  }

  predicate IsDigit(c: char) {
    '0' <= c <= '9'
  }

  function LowerChar(c: char): char {
    if IsUpper(c) then (c as int + 32) as char else c
  }

  /** JavaScript's `s.toLowerCase()` on ASCII text. */
  function Lower(s: string): (r: string)
    ensures |r| == |s|
    ensures forall i :: 0 <= i < |r| ==> !IsUpper(r[i])
    ensures forall i :: 0 <= i < |s| && !IsUpper(s[i]) ==> r[i] == s[i]
    ensures forall i :: 0 <= i < |s| && IsUpper(s[i]) ==> r[i] as int == s[i] as int + 32
  {
    seq(|s|, i requires 0 <= i < |s| => LowerChar(s[i]))
  }

  /** Lower-casing twice is lower-casing once. */
  lemma LowerIdempotent(s: string)
    ensures Lower(Lower(s)) == Lower(s)
  {
    var l := Lower(s);
    assert forall i :: 0 <= i < |l| ==> Lower(l)[i] == l[i];
  }

  /** JavaScript's `hay.includes(needle)`. */
  predicate Contains(hay: string, needle: string)
    decreases |hay|
  {
    needle <= hay || (|hay| > 0 && Contains(hay[1..], needle))
  }

  /** `needle` occurs in `hay` starting at position `i`. */
  predicate OccursAt(hay: string, needle: string, i: int) {
    0 <= i && i + |needle| <= |hay| && hay[i..i + |needle|] == needle
  }

  /** `Contains` finds `needle` exactly when it occurs at some position. */
  lemma {:induction false} ContainsIff(hay: string, needle: string)
    ensures Contains(hay, needle) <==> exists i :: OccursAt(hay, needle, i)
    decreases |hay|
  {
    if needle <= hay {
      assert OccursAt(hay, needle, 0);
    } else if |hay| > 0 {
      ContainsIff(hay[1..], needle);
      if Contains(hay[1..], needle) {
        var j :| OccursAt(hay[1..], needle, j);
        assert hay[j + 1..j + 1 + |needle|] == hay[1..][j..j + |needle|];
        assert OccursAt(hay, needle, j + 1);
      }
      if exists i :: OccursAt(hay, needle, i) {
        var i :| OccursAt(hay, needle, i);
        if i > 0 {
          assert hay[1..][i - 1..i - 1 + |needle|] == hay[i..i + |needle|];
          assert OccursAt(hay[1..], needle, i - 1);
        }
      }
    }
  }

  // ---------------------------------------------------------------------------
  // Decimal digits and `toString`

  predicate AllDigits(s: string) {
    forall i :: 0 <= i < |s| ==> IsDigit(s[i])
  }

  predicate HasNonzeroDigit(s: string) {
    exists i :: 0 <= i < |s| && s[i] != '0'
  }

  function DigitChar(d: nat): (c: char)
    requires d < 10
    ensures IsDigit(c) && c as int - '0' as int == d
  {
    ('0' as int + d) as char
  }

  /** The number a string of decimal digits denotes. */
  function DigitsValue(s: string): nat
    requires AllDigits(s)
  {
    if |s| == 0 then 0
    else DigitsValue(s[..|s| - 1]) * 10 + (s[|s| - 1] as int - '0' as int)
  }

  /** The digits of a string denote a positive number exactly when one of
      them is not `0`. */
  lemma {:induction false} DigitsValuePositive(s: string)
    requires AllDigits(s)
    ensures DigitsValue(s) > 0 <==> HasNonzeroDigit(s)
  {
    if |s| > 0 {
      var p := s[..|s| - 1];
      DigitsValuePositive(p);
      if HasNonzeroDigit(p) {
        var i :| 0 <= i < |p| && p[i] != '0';
        assert s[i] != '0';
      }
      if HasNonzeroDigit(s) && !HasNonzeroDigit(p) {
        var i :| 0 <= i < |s| && s[i] != '0';
        assert i == |s| - 1 || p[i] != '0';
      }
    }
  }

  /** `n.toString()` for a natural number: decimal digits denoting `n`. */
  function NatText(n: nat): (r: string)
    ensures |r| > 0 && AllDigits(r)
    ensures DigitsValue(r) == n
  {
    if n < 10 then [DigitChar(n)]
    else
      var p := NatText(n / 10);
      var r := p + [DigitChar(n % 10)];
      assert r[..|r| - 1] == p;
      r
  }

  /** `n.toString()` for an integer. */
  function IntText(n: int): string {
    if n < 0 then "-" + NatText(-n) else NatText(n)
  }

  /** How the database driver renders a `DECIMAL(10, 2)` value held as an
      integer number of cents: optional minus sign, whole part, point, two
      digits. */
  function CentsText(cents: int): string {
    var a := if cents < 0 then -cents else cents;
    (if cents < 0 then "-" else "") + NatText(a / 100) + "." + TwoDigits(a % 100)
  }

  /** The two-digit rendering of a number below 100, zero-padded. */
  function TwoDigits(x: nat): (r: string)
    requires x < 100
    ensures |r| == 2 && AllDigits(r) && DigitsValue(r) == x
  {
    var r := [DigitChar(x / 10), DigitChar(x % 10)];
    assert r[..1] == [r[0]] && [r[0]][..0] == [];
    assert DigitsValue(r[..1]) == x / 10;
    r
  }

  // ---------------------------------------------------------------------------
  // JavaScript number conversion

  /** The shape `Number(s)` accepts, after trimming: `Blank` for a string that
      is empty after trimming (which converts to 0), otherwise an optional sign
      and a decimal numeral with at least one digit. */
  datatype JsNumber = Blank | Numeral(negative: bool, whole: string, fraction: string)

  /** Length of the longest prefix of `s` made of digits. */
  function DigitRun(s: string): (k: nat)
    ensures k <= |s| && AllDigits(s[..k])
    ensures k < |s| ==> !IsDigit(s[k])
  {
    if |s| > 0 && IsDigit(s[0]) then
      var k := 1 + DigitRun(s[1..]);
      assert forall i :: 1 <= i < k ==> s[..k][i] == s[1..][..k - 1][i - 1];
      k
    else 0
  }

  /** A numeral without its sign: digits, optionally a point and more
      digits, and at least one digit overall. */
  function ParseUnsigned(body: string, negative: bool): (r: Option<JsNumber>)
    ensures r.Some? ==> r.value.Numeral? && r.value.negative == negative
    ensures r.Some? ==> AllDigits(r.value.whole) && AllDigits(r.value.fraction)
    ensures r.Some? ==> |r.value.whole| + |r.value.fraction| > 0
  {
    var k := DigitRun(body);
    var rest := body[k..];
    if rest == "" then
      if k > 0 then Some(Numeral(negative, body[..k], "")) else None
    else if rest[0] == '.' && AllDigits(rest[1..]) && (k > 0 || |rest| > 1) then
      Some(Numeral(negative, body[..k], rest[1..]))
    else None
  }

  /** `Number(s)`: `None` stands for `NaN`. */
  function ParseNumber(s: string): (r: Option<JsNumber>)
    ensures r.Some? && r.value.Numeral? ==>
              AllDigits(r.value.whole) && AllDigits(r.value.fraction) &&
              |r.value.whole| + |r.value.fraction| > 0
  {
    var t := Trim(s);
    if t == "" then Some(Blank) else ParseSignedNumeral(t)
  }

  /** A trimmed, non-empty string: an optional sign, then a numeral. */
  function ParseSignedNumeral(t: string): (r: Option<JsNumber>)
    requires t != ""
    ensures r.Some? ==> r.value.Numeral?
    ensures r.Some? ==> AllDigits(r.value.whole) && AllDigits(r.value.fraction)
    ensures r.Some? ==> |r.value.whole| + |r.value.fraction| > 0
  {
    if t[0] == '-' || t[0] == '+' then ParseUnsigned(t[1..], t[0] == '-')
    else ParseUnsigned(t, false)
  }

  /** `isNaN(s)`. */
  predicate IsNaN(s: string) {
    ParseNumber(s).None?
  }

  /** `parseInt(s)` on a string `Number` accepts: the signed whole part, or
      `None` (NaN) when there are no whole digits. */
  function ParseInt(s: string): (r: Option<int>)
    ensures r.Some? ==> !IsNaN(s)
  {
    var p := ParseNumber(s);
    if p.Some? && p.value.Numeral? && p.value.whole != "" then
      Some(Signed(p.value.negative, DigitsValue(p.value.whole)))
    else None
  }

  /** The integer with magnitude `m`, negated when `negative`. */
  function Signed(negative: bool, m: nat): int {
    var v: int := m;
    if negative then -v else v
  }

  /** `parseFloat(s) > 0` on a string `Number` accepts. */
  predicate FloatPositive(s: string) {
    match ParseNumber(s)
    case Some(Numeral(neg, w, f)) => !neg && HasNonzeroDigit(w + f)
    case _ => false
  }

  /** `parseFloat(s) <= 0` on a string `Number` accepts; false for NaN, as
      every comparison with NaN is. */
  predicate FloatNonPositive(s: string) {
    match ParseNumber(s)
    case Some(Numeral(neg, w, f)) => neg || !HasNonzeroDigit(w + f)
    case _ => false
  }

  /** A string with no white space is read by `Number` without trimming;
      a leading digit means there is no sign to strip. */
  lemma ParseSigned(neg: bool, body: string)
    requires |body| > 0 && IsDigit(body[0])
    requires Trim((if neg then "-" else "") + body) == (if neg then "-" else "") + body
    ensures ParseNumber((if neg then "-" else "") + body) == ParseUnsigned(body, neg)
  {
    var t := (if neg then "-" else "") + body;
    assert ParseNumber(t) == ParseSignedNumeral(t);
    if neg {
      assert t[1..] == body;
    } else {
      assert t == body;
    }
  }

  /** An optionally negated numeral contains no white space, so trimming
      leaves it alone. */
  lemma NumeralIsTrimmed(neg: bool, body: string)
    requires forall i :: 0 <= i < |body| ==> IsDigit(body[i]) || body[i] == '.'
    ensures Trim((if neg then "-" else "") + body) == (if neg then "-" else "") + body
  {
    var t := (if neg then "-" else "") + body;
    forall i | 0 <= i < |t|
      ensures !IsSpace(t[i])
    {
      if neg && i > 0 {
        assert t[i] == body[i - 1];
      } else if !neg {
        assert t[i] == body[i];
      }
    }
    TrimWithoutSpace(t);
  }

  /** `Number` reads a blank string, and only a blank string, as 0 without
      digits. */
  lemma ParseBlank(s: string)
    ensures ParseNumber(s) == Some(Blank) <==> IsBlank(s)
  {
    TrimEmptyIffBlank(s);
  }

  /** Digits, optionally followed by a point and more digits, are read as
      that numeral. */
  lemma ParseDecimal(neg: bool, w: string, point: bool, f: string)
    requires |w| > 0 && AllDigits(w) && AllDigits(f)
    requires !point ==> f == ""
    ensures ParseUnsigned(w + (if point then "." + f else ""), neg) == Some(Numeral(neg, w, f))
  {
    var body := w + (if point then "." + f else "");
    assert body[..|w|] == w;
    if point {
      assert body[|w|] == '.';
    }
    DigitRunStops(body, |w|);
    if point {
      assert body[|w|..] == "." + f;
      assert body[|w|..][1..] == f;
    } else {
      assert body[|w|..] == "";
    }
  }

  /** The characters of a numeral with an optional fraction are digits and
      at most one point. */
  lemma DecimalChars(w: string, point: bool, f: string)
    requires |w| > 0 && AllDigits(w) && AllDigits(f)
    ensures var body := w + (if point then "." + f else "");
            |body| > 0 && IsDigit(body[0]) &&
            forall i :: 0 <= i < |body| ==> IsDigit(body[i]) || body[i] == '.'
  {
    var body := w + (if point then "." + f else "");
    forall i | 0 <= i < |body|
      ensures IsDigit(body[i]) || body[i] == '.'
    {
      if i < |w| {
        assert body[i] == w[i];
      } else if point && i > |w| {
        assert body[i] == f[i - |w| - 1];
      }
    }
  }

  /** A string of digits, with an optional minus sign and an optional
      fraction, reads back under `Number` as the numeral it spells. */
  lemma ParseRendered(neg: bool, w: string, point: bool, f: string)
    requires |w| > 0 && AllDigits(w) && AllDigits(f)
    requires !point ==> f == ""
    ensures ParseNumber((if neg then "-" else "") + (w + (if point then "." + f else ""))) ==
            Some(Numeral(neg, w, f))
  {
    DecimalChars(w, point, f);
    NumeralIsTrimmed(neg, w + (if point then "." + f else ""));
    ParseSigned(neg, w + (if point then "." + f else ""));
    ParseDecimal(neg, w, point, f);
  }

  /** An integer's text is never empty. */
  lemma IntTextNonEmpty(n: int)
    ensures IntText(n) != ""
  {
    if n < 0 {
      assert IntText(n)[0] == '-';
    } else {
      assert |NatText(n)| > 0;
    }
  }

  /** Rendering an integer and reading it back with `parseInt` gives the
      integer again. */
  lemma IntTextRoundTrip(n: int)
    ensures ParseInt(IntText(n)) == Some(n)
  {
    var d: nat := if n < 0 then -n else n;
    var w := NatText(d);
    var t := IntText(n);
    if n < 0 {
      assert t == "-" + w;
    } else {
      assert t == "" + w;
    }
    ParseIntOfDigits(n < 0, w, t);
  }

  /** An integer's text reads as a numeral without a fraction whose digits
      are the magnitude's. */
  lemma ParseIntText(n: int)
    ensures ParseNumber(IntText(n)) == Some(Numeral(n < 0, NatText(if n < 0 then -n else n), ""))
  {
    var w := NatText(if n < 0 then -n else n);
    var t := IntText(n);
    if n < 0 {
      assert t == "-" + w;
    } else {
      assert t == "" + w;
    }
    ParseRendered(n < 0, w, false, "");
    assert w + "" == w;
  }

  /** `parseInt` of an optionally negated string of digits. */
  lemma ParseIntOfDigits(neg: bool, w: string, t: string)
    requires |w| > 0 && AllDigits(w)
    requires t == (if neg then "-" else "") + w
    ensures ParseInt(t) == Some(Signed(neg, DigitsValue(w)))
  {
    ParseRendered(neg, w, false, "");
    assert w + "" == w;
    assert ParseNumber(t) == Some(Numeral(neg, w, ""));
  }

  /** A nonzero digit of `w + f` is a nonzero digit of `w` or of `f`. */
  lemma NonzeroDigitOfConcat(w: string, f: string)
    ensures HasNonzeroDigit(w + f) <==> HasNonzeroDigit(w) || HasNonzeroDigit(f)
  {
    if HasNonzeroDigit(w) {
      var i :| 0 <= i < |w| && w[i] != '0';
      assert (w + f)[i] == w[i];
    }
    if HasNonzeroDigit(f) {
      var i :| 0 <= i < |f| && f[i] != '0';
      assert (w + f)[|w| + i] == f[i];
    }
    if HasNonzeroDigit(w + f) {
      var i :| 0 <= i < |w + f| && (w + f)[i] != '0';
      if i < |w| { assert w[i] != '0'; } else { assert f[i - |w|] != '0'; }
    }
  }

  /** Rendering an amount of cents and reading it back with `parseFloat`
      keeps its sign. */
  lemma CentsTextSign(cents: int)
    ensures !IsNaN(CentsText(cents))
    ensures FloatPositive(CentsText(cents)) <==> cents > 0
    ensures FloatNonPositive(CentsText(cents)) <==> cents <= 0
  {
    var a := if cents < 0 then -cents else cents;
    var w := NatText(a / 100);
    var f := TwoDigits(a % 100);
    var t := CentsText(cents);
    assert t == (if cents < 0 then "-" else "") + (w + ("." + f));
    ParseRendered(cents < 0, w, true, f);
    assert ParseNumber(t) == Some(Numeral(cents < 0, w, f));
    DigitsValuePositive(w);
    DigitsValuePositive(f);
    NonzeroDigitOfConcat(w, f);
    assert a > 0 <==> a / 100 > 0 || a % 100 > 0;
  }

  /** When `s[..k]` is all digits and `s[k]` is not one, the digit run of `s`
      has length exactly `k`. */
  lemma {:induction false} DigitRunStops(s: string, k: nat)
    requires k <= |s| && AllDigits(s[..k])
    requires k < |s| ==> !IsDigit(s[k])
    ensures DigitRun(s) == k
  {
    if k > 0 {
      assert IsDigit(s[..k][0]);
      assert s[1..][..k - 1] == s[1..k];
      assert forall i :: 0 <= i < k - 1 ==> s[1..k][i] == s[..k][i + 1];
      DigitRunStops(s[1..], k - 1);
    }
  }

  // ---------------------------------------------------------------------------
  // Ordering

  /** Lexicographic order on character codes. */
  predicate LexLe(a: string, b: string) {
    |a| == 0 || (|b| > 0 && (a[0] < b[0] || (a[0] == b[0] && LexLe(a[1..], b[1..]))))
  }

  lemma {:induction false} LexLeTotal(a: string, b: string)
    ensures LexLe(a, b) || LexLe(b, a)
  {
    if |a| > 0 && |b| > 0 && a[0] == b[0] {
      LexLeTotal(a[1..], b[1..]);
    }
  }
}
