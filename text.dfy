/**
 * The string operations the application relies on, over sequences of
 * Unicode scalar values (`string` is `seq<char>`): `trim`, ASCII
 * `toLowerCase`, `includes`, `startsWith`, integer `toString`, `parseInt`
 * and integer `Number`, and the code-point order that SQLite's BINARY
 * collation gives UTF-8 text.
 */
module Text {
  import opened Wrappers

  /** The characters `String.prototype.trim` removes: ECMAScript WhiteSpace and LineTerminator. */
  predicate IsSpace(c: char) {
    c == '\t' || c == '\n' || c == '\U{000B}' || c == '\U{000C}' || c == '\r' || c == ' '
    || c == '\U{00A0}' || c == '\U{1680}' || ('\U{2000}' <= c <= '\U{200A}')
    || c == '\U{2028}' || c == '\U{2029}' || c == '\U{202F}' || c == '\U{205F}'
    || c == '\U{3000}' || c == '\U{FEFF}'
  }

  predicate AllSpace(s: string) {
    forall i :: 0 <= i < |s| ==> IsSpace(s[i])
  }

  /** Drops leading white space. */
  function TrimStart(s: string): (r: string)
    ensures |r| <= |s|
  {
    if s == [] || !IsSpace(s[0]) then s else TrimStart(s[1..])
  }

  /** The result of `TrimStart` is a suffix that starts with a non-space, if anything, after only white space. */
  lemma {:induction false} TrimStartSpec(s: string)
    ensures TrimStart(s) == s[|s| - |TrimStart(s)|..]
    ensures AllSpace(s[..|s| - |TrimStart(s)|])
    ensures TrimStart(s) != [] ==> !IsSpace(TrimStart(s)[0])
  {
    if s != [] && IsSpace(s[0]) {
      var r := TrimStart(s[1..]);
      TrimStartSpec(s[1..]);
      assert TrimStart(s) == r;
      var k := |s| - |r|;
      var front := s[1..][..k - 1];
      assert AllSpace(front);
      assert s[1..][k - 1..] == s[k..];
      forall i | 0 <= i < k ensures IsSpace(s[i]) {
        if i > 0 {
          assert s[i] == front[i - 1];
        }
      }
    }
  }

  /** Drops trailing white space. */
  function TrimEnd(s: string): (r: string)
    ensures |r| <= |s|
  {
    if s == [] || !IsSpace(s[|s| - 1]) then s else TrimEnd(s[..|s| - 1])
  }

  /** The result of `TrimEnd` is a prefix that ends with a non-space, if anything, before only white space. */
  lemma {:induction false} TrimEndSpec(s: string)
    ensures TrimEnd(s) == s[..|TrimEnd(s)|]
    ensures AllSpace(s[|TrimEnd(s)|..])
    ensures TrimEnd(s) != [] ==> !IsSpace(TrimEnd(s)[|TrimEnd(s)| - 1])
  {
    if s != [] && IsSpace(s[|s| - 1]) {
      var r := TrimEnd(s[..|s| - 1]);
      TrimEndSpec(s[..|s| - 1]);
      assert s[..|s| - 1][|r|..] + [s[|s| - 1]] == s[|r|..];
      forall i | |r| <= i < |s| ensures IsSpace(s[i]) {
        if i < |s| - 1 { assert s[i] == s[..|s| - 1][|r|..][i - |r|]; }
      }
    }
  }

  /** `s.trim()`. */
  function Trim(s: string): string {
    TrimEnd(TrimStart(s))
  }

  lemma AllSpaceCons(s: string)
    requires s != []
    ensures AllSpace(s) <==> IsSpace(s[0]) && AllSpace(s[1..])
  {
    if IsSpace(s[0]) && AllSpace(s[1..]) {
      forall i | 0 <= i < |s| ensures IsSpace(s[i]) {
        if i > 0 { assert s[i] == s[1..][i - 1]; }
      }
    }
  }

  lemma {:induction false} TrimStartEmptyIffAllSpace(s: string)
    ensures TrimStart(s) == [] <==> AllSpace(s)
  {
    if s != [] {
      AllSpaceCons(s);
      if IsSpace(s[0]) {
        TrimStartEmptyIffAllSpace(s[1..]);
      }
    }
  }

  /** `!s.trim()` holds exactly for the strings made of white space only (the empty one included). */
  lemma TrimEmptyIffAllSpace(s: string)
    ensures Trim(s) == [] <==> AllSpace(s)
  {
    var t := TrimStart(s);
    TrimStartEmptyIffAllSpace(s);
    TrimStartSpec(s);
    TrimEndSpec(t);
    if Trim(s) == [] {
      assert t[0..] == t;
      TrimStartEmptyIffAllSpace(t);
    }
  }

  /** A trimmed string neither starts nor ends with white space, so trimming twice changes nothing. */
  lemma TrimIdempotent(s: string)
    ensures Trim(Trim(s)) == Trim(s)
  {
    var t := Trim(s);
    var u := TrimStart(s);
    TrimStartSpec(s);
    TrimEndSpec(u);
    TrimEndSpec(t);
    if t != [] {
      assert t == u[..|t|];
      assert t[0] == u[0];
      assert !IsSpace(t[0]);
    }
  }

  /** ASCII `toLowerCase`: 'A'..'Z' become 'a'..'z', every other character is kept. */
  function LowerChar(c: char): char {
    if 'A' <= c <= 'Z' then (c as int + 32) as char else c
  }

  function Lower(s: string): (r: string)
    ensures |r| == |s|
    ensures forall i :: 0 <= i < |s| ==> r[i] == LowerChar(s[i])
  {
    if s == [] then [] else [LowerChar(s[0])] + Lower(s[1..])
  }

  /** `hay.includes(needle)`: `needle` is a prefix of some suffix of `hay`. */
  predicate Contains(hay: string, needle: string) {
    needle <= hay || (hay != [] && Contains(hay[1..], needle))
  }

  /** `needle` occurs in `hay` starting at index `i`. */
  predicate OccursAt(hay: string, needle: string, i: int) {
    0 <= i <= |hay| - |needle| && hay[i..i + |needle|] == needle
  }

  lemma OccursAtStart(hay: string, needle: string)
    ensures OccursAt(hay, needle, 0) <==> needle <= hay
  {
    if |needle| <= |hay| {
      assert hay[..|needle|] == hay[0..0 + |needle|];
    }
  }

  /** `Contains` agrees with the window definition of a substring. */
  lemma {:induction false} ContainsAt(hay: string, needle: string)
    ensures Contains(hay, needle) <==> exists i :: OccursAt(hay, needle, i)
  {
    if needle <= hay {
      assert OccursAt(hay, needle, 0);
    } else if hay != [] {
      ContainsAt(hay[1..], needle);
      if Contains(hay[1..], needle) {
        var i :| OccursAt(hay[1..], needle, i);
        assert hay[1..][i..i + |needle|] == hay[i + 1..i + 1 + |needle|];
        assert OccursAt(hay, needle, i + 1);
      }
      if exists i :: OccursAt(hay, needle, i) {
        var i :| OccursAt(hay, needle, i);
        OccursAtStart(hay, needle);
        assert hay[1..][i - 1..i - 1 + |needle|] == hay[i..i + |needle|];
        assert OccursAt(hay[1..], needle, i - 1);
      }
    }
  }

  /** `s.startsWith(prefix)`. */
  predicate StartsWith(s: string, prefix: string) {
    prefix <= s
  }

  /** Lexicographic order by character code: SQLite's BINARY collation on UTF-8 text. */
  predicate TextLe(a: string, b: string) {
    a == [] || (b != [] && (a[0] < b[0] || (a[0] == b[0] && TextLe(a[1..], b[1..]))))
  }

  lemma {:induction false} TextLeTotal(a: string, b: string)
    ensures TextLe(a, b) || TextLe(b, a)
  {
    if a != [] && b != [] && a[0] == b[0] {
      TextLeTotal(a[1..], b[1..]);
    }
  }

  lemma {:induction false} TextLeTransitive(a: string, b: string, c: string)
    requires TextLe(a, b) && TextLe(b, c)
    ensures TextLe(a, c)
  {
    if a != [] && a[0] == b[0] && b[0] == c[0] {
      TextLeTransitive(a[1..], b[1..], c[1..]);
    }
  }

  lemma {:induction false} TextLeAntisymmetric(a: string, b: string)
    requires TextLe(a, b) && TextLe(b, a)
    ensures a == b
  {
    if a != [] {
      TextLeAntisymmetric(a[1..], b[1..]);
    }
  }

  function DigitChar(d: int): char
    requires 0 <= d < 10
  {
    "0123456789"[d]
  }

  /** The decimal digits of a natural number, most significant first. */
  function Digits(n: nat): (r: string)
    ensures r != []
    ensures forall i :: 0 <= i < |r| ==> '0' <= r[i] <= '9'
  {
    if n < 10 then [DigitChar(n)] else Digits(n / 10) + [DigitChar(n % 10)]
  }

  /** `Number.prototype.toString()` on an integer: an optional '-' and the decimal digits. */
  function IntToString(i: int): string {
    if i < 0 then "-" + Digits(-i) else Digits(i)
  }

  /** A character's value as a digit: '0'-'9', then 'a'-'z' and 'A'-'Z' from 10 on; 36 for any other character. */
  function DigitValue(c: char): nat {
    if '0' <= c <= '9' then c as int - '0' as int
    else if 'a' <= c <= 'z' then c as int - 'a' as int + 10
    else if 'A' <= c <= 'Z' then c as int - 'A' as int + 10
    else 36
  }

  predicate IsDigitIn(c: char, radix: nat) {
    DigitValue(c) < radix
  }

  /** The longest prefix of `s` made of digits of the radix. */
  function DigitRun(s: string, radix: nat): (r: string)
    ensures r <= s
    ensures forall i :: 0 <= i < |r| ==> IsDigitIn(r[i], radix)
    ensures |r| < |s| ==> !IsDigitIn(s[|r|], radix)
  {
    if s == [] || !IsDigitIn(s[0], radix) then [] else [s[0]] + DigitRun(s[1..], radix)
  }

  lemma ProductIsNat(a: nat, b: nat)
    ensures a * b >= 0
  {
  }

  /** The value of a run of digits, most significant first. */
  function RunValue(s: string, radix: nat): nat
    requires forall i :: 0 <= i < |s| ==> IsDigitIn(s[i], radix)
  {
    if s == [] then 0
    else
      var init := s[..|s| - 1];
      assert forall i :: 0 <= i < |init| ==> init[i] == s[i];
      var high := RunValue(init, radix);
      ProductIsNat(radix, high);
      radix * high + DigitValue(s[|s| - 1])
  }

  /** The leading digits of `u` in the radix, or None when `u` does not start with one. */
  function ReadRun(u: string, radix: nat): Option<nat> {
    var d := DigitRun(u, radix);
    if d == [] then None else Some(RunValue(d, radix))
  }

  /** Text that starts with "0x" or "0X"; a bare "0x" counts too, and then no hex digit follows it. */
  predicate HexPrefixed(u: string) {
    |u| >= 2 && u[0] == '0' && (u[1] == 'x' || u[1] == 'X')
  }

  /** What `parseInt` reads after a sign: hexadecimal after "0x"/"0X", decimal otherwise. */
  function ReadMagnitude(u: string): Option<nat> {
    if HexPrefixed(u) then ReadRun(u[2..], 16) else ReadRun(u, 10)
  }

  /** `parseInt` on text that starts after the white space: one optional sign, then the magnitude. */
  function ParseSigned(t: string): Option<int> {
    if t != [] && (t[0] == '-' || t[0] == '+') then
      var m := ReadMagnitude(t[1..]);
      if m.None? then None else if t[0] == '-' then Some(-(m.value as int)) else Some(m.value)
    else
      var m := ReadMagnitude(t);
      if m.None? then None else Some(m.value)
  }

  /**
   * `parseInt(s)` with no radix: leading white space is skipped, then one
   * optional sign; "0x"/"0X" selects hexadecimal; the longest run of digits
   * that follows is read and the rest of the text ignored. No digit at all
   * is NaN, None here.
   */
  function ParseInt(s: string): Option<int> {
    ParseSigned(TrimStart(s))
  }

  /** A whole text made of at least one digit of the radix. */
  predicate AllDigitsIn(u: string, radix: nat) {
    u != [] && DigitRun(u, radix) == u
  }

  /** `Number` on trimmed, non-blank text. */
  function NumberOfTrimmed(t: string): Option<int> {
    if HexPrefixed(t) && AllDigitsIn(t[2..], 16) then Some(RunValue(t[2..], 16))
    else if t != [] && (t[0] == '-' || t[0] == '+') then
      if AllDigitsIn(t[1..], 10) then
        if t[0] == '-' then Some(-(RunValue(t[1..], 10) as int)) else Some(RunValue(t[1..], 10))
      else None
    else if AllDigitsIn(t, 10) then Some(RunValue(t, 10))
    else None
  }

  /**
   * `Number(s)` on integer text: surrounding white space is ignored and
   * blank text is 0; otherwise the whole text must be an optional sign and
   * decimal digits, or an unsigned "0x"/"0X" and hexadecimal digits. Any
   * other text is NaN, None here.
   */
  function ParseNumber(s: string): Option<int> {
    if Trim(s) == [] then Some(0) else NumberOfTrimmed(Trim(s))
  }

  lemma DigitCharValue(d: int)
    requires 0 <= d < 10
    ensures '0' <= DigitChar(d) <= '9' && DigitValue(DigitChar(d)) == d
    ensures DigitChar(d) == '0' <==> d == 0
  {
  }

  lemma {:induction false} DigitsValueOfDigits(n: nat)
    ensures forall i :: 0 <= i < |Digits(n)| ==> IsDigitIn(Digits(n)[i], 10)
    ensures RunValue(Digits(n), 10) == n
  {
    if n < 10 {
      DigitCharValue(n);
    } else {
      var d := Digits(n / 10) + [DigitChar(n % 10)];
      assert d[..|d| - 1] == Digits(n / 10);
      DigitCharValue(n % 10);
      DigitsValueOfDigits(n / 10);
    }
  }

  /** A run of digits followed by a non-digit, or by nothing, is read up to that point. */
  lemma {:induction false} DigitRunStops(d: string, rest: string, radix: nat)
    requires forall i :: 0 <= i < |d| ==> IsDigitIn(d[i], radix)
    requires rest == [] || !IsDigitIn(rest[0], radix)
    ensures DigitRun(d + rest, radix) == d
  {
    if d != [] {
      assert (d + rest)[1..] == d[1..] + rest;
      DigitRunStops(d[1..], rest, radix);
    }
  }

  /** Leading white space is dropped up to the first other character. */
  lemma {:induction false} TrimStartSkips(ws: string, t: string)
    requires AllSpace(ws)
    requires t == [] || !IsSpace(t[0])
    ensures TrimStart(ws + t) == t
  {
    if ws != [] {
      assert (ws + t)[1..] == ws[1..] + t;
      TrimStartSkips(ws[1..], t);
    }
  }

  /** The text that may follow an integer's digits without being read as part of it. */
  predicate EndsNumber(n: nat, rest: string) {
    rest == [] || (!IsDigitIn(rest[0], 10) && (n == 0 ==> rest[0] != 'x' && rest[0] != 'X'))
  }

  /** A run of decimal digits worth `n`, then text that cannot extend it, read as `n`. */
  lemma ReadDigitText(d: string, n: nat, rest: string)
    requires d != [] && forall k :: 0 <= k < |d| ==> IsDigitIn(d[k], 10)
    requires RunValue(d, 10) == n
    requires EndsNumber(n, rest)
    ensures IsDigitIn((d + rest)[0], 10)
    ensures ReadMagnitude(d + rest) == Some(n)
  {
    assert DigitRun(d + rest, 10) == d by {
      DigitRunStops(d, rest, 10);
    }
    assert (d + rest)[0] == d[0];
    assert !HexPrefixed(d + rest) by {
      if |d| == 1 {
        assert d[..0] == [];
        assert n == DigitValue(d[0]);
        if rest != [] {
          assert (d + rest)[1] == rest[0];
        }
      } else {
        assert (d + rest)[1] == d[1];
      }
    }
  }

  /** After the white space: an optional sign, then text whose magnitude is `n` and which starts with a digit. */
  lemma ParseSignedDigits(sign: string, u: string, n: nat)
    requires sign == "" || sign == "+" || sign == "-"
    requires u != [] && IsDigitIn(u[0], 10) && ReadMagnitude(u) == Some(n)
    ensures ParseSigned(sign + u) == Some(if sign == "-" then -(n as int) else n)
  {
    var t := sign + u;
    if sign != "" {
      assert t[1..] == u;
    } else {
      assert t == u;
    }
  }

  /** `parseInt` skips leading white space up to the first other character. */
  lemma ParseIntAfterSpace(ws: string, t: string)
    requires AllSpace(ws)
    requires t == [] || !IsSpace(t[0])
    ensures ParseInt(ws + t) == ParseSigned(t)
  {
    TrimStartSkips(ws, t);
  }

  /** White space, an optional sign, then text that starts with a digit and whose magnitude is `n`. */
  lemma ParseSignedText(ws: string, sign: string, u: string, n: nat)
    requires AllSpace(ws)
    requires sign == "" || sign == "+" || sign == "-"
    requires u != [] && IsDigitIn(u[0], 10) && ReadMagnitude(u) == Some(n)
    ensures ParseInt(ws + (sign + u)) == Some(if sign == "-" then -(n as int) else n)
  {
    var t := sign + u;
    assert !IsSpace(t[0]) by {
      if sign == "" {
        assert t[0] == u[0];
      }
    }
    ParseIntAfterSpace(ws, t);
    ParseSignedDigits(sign, u, n);
  }

  /** White space, an optional sign, a run of decimal digits and text that cannot extend it. */
  lemma ParseDigitText(ws: string, sign: string, d: string, n: nat, rest: string)
    requires AllSpace(ws)
    requires sign == "" || sign == "+" || sign == "-"
    requires d != [] && forall k :: 0 <= k < |d| ==> IsDigitIn(d[k], 10)
    requires RunValue(d, 10) == n
    requires EndsNumber(n, rest)
    ensures ParseInt(ws + (sign + (d + rest))) == Some(if sign == "-" then -(n as int) else n)
  {
    ReadDigitText(d, n, rest);
    ParseSignedText(ws, sign, d + rest, n);
  }

  /**
   * `parseInt` reads an integer's decimal text, with an optional '+' before
   * a non-negative one, after any white space and before any text that
   * cannot continue it.
   */
  lemma ParseIntReadsLeadingInteger(ws: string, plus: bool, i: int, rest: string)
    requires AllSpace(ws)
    requires plus ==> i >= 0
    requires EndsNumber(if i < 0 then -i else i, rest)
    ensures ParseInt(ws + (if plus then "+" else "") + IntToString(i) + rest) == Some(i)
  {
    var n: nat := if i < 0 then -i else i;
    var d := Digits(n);
    var sign := if i < 0 then "-" else if plus then "+" else "";
    var x := if plus then "+" else "";
    var y := IntToString(i);
    assert x + y == sign + d by {
      if i < 0 {
        assert y == "-" + d;
      } else {
        assert y == d;
      }
    }
    DigitsValueOfDigits(n);
    ConcatShape(ws, x, y, rest, sign, d);
    ParseDigitText(ws, sign, d, n, rest);
  }

  lemma ConcatShape(ws: string, x: string, y: string, rest: string, sign: string, d: string)
    requires x + y == sign + d
    ensures ws + x + y + rest == ws + (sign + (d + rest))
  {
    calc {
      ws + x + y + rest;
      ws + (x + y) + rest;
      ws + (sign + d) + rest;
      ws + (sign + (d + rest));
    }
  }

  /** Parsing the decimal text of any integer gives that integer back. */
  lemma ParseIntToString(i: int)
    ensures ParseInt(IntToString(i)) == Some(i)
  {
    var n: nat := if i < 0 then -i else i;
    var d := Digits(n);
    var sign := if i < 0 then "-" else "";
    assert "" + (sign + (d + "")) == IntToString(i);
    DigitsValueOfDigits(n);
    ParseDigitText("", sign, d, n, "");
  }

  /** Trimming leaves an integer's decimal text as it is. */
  lemma TrimIntText(i: int)
    ensures Trim(IntToString(i)) == IntToString(i)
  {
    var n: nat := if i < 0 then -i else i;
    var t := IntToString(i);
    DigitsValueOfDigits(n);
    if i < 0 {
      assert t[|t| - 1] == Digits(n)[|Digits(n)| - 1];
    }
    assert TrimStart(t) == t;
    assert IsDigitIn(t[|t| - 1], 10);
  }

  /** `Number` of a whole run of decimal digits. */
  lemma NumberOfDigits(u: string)
    requires AllDigitsIn(u, 10)
    ensures NumberOfTrimmed(u) == Some(RunValue(u, 10))
  {
    assert IsDigitIn(u[0], 10);
    assert !HexPrefixed(u) by {
      if |u| >= 2 {
        assert IsDigitIn(u[1], 10);
      }
    }
  }

  /** `Number` of an optional sign and a whole run of decimal digits. */
  lemma NumberOfSignedDigits(sign: string, u: string)
    requires sign == "" || sign == "+" || sign == "-"
    requires AllDigitsIn(u, 10)
    ensures var n := RunValue(u, 10);
      NumberOfTrimmed(sign + u) == Some(if sign == "-" then -(n as int) else n)
  {
    var t := sign + u;
    if sign == "" {
      assert t == u;
      NumberOfDigits(u);
    } else {
      assert t[0] == sign[0] && t[1..] == u;
    }
  }

  /** White space in front of the text does not change what `TrimStart` leaves. */
  lemma {:induction false} TrimStartSkipsSpace(ws: string, s: string)
    requires AllSpace(ws)
    ensures TrimStart(ws + s) == TrimStart(s)
  {
    if ws != [] {
      assert (ws + s)[1..] == ws[1..] + s;
      TrimStartSkipsSpace(ws[1..], s);
    } else {
      assert ws + s == s;
    }
  }

  /** White space after the text does not change what `TrimEnd` leaves. */
  lemma {:induction false} TrimEndSkipsSpace(s: string, ws: string)
    requires AllSpace(ws)
    ensures TrimEnd(s + ws) == TrimEnd(s)
  {
    if ws != [] {
      var init := ws[..|ws| - 1];
      assert (s + ws)[..|s + ws| - 1] == s + init;
      TrimEndSkipsSpace(s, init);
    } else {
      assert s + ws == s;
    }
  }

  /** `s.trim()` ignores white space added around `s`. */
  lemma TrimIgnoresSurroundingSpace(ws1: string, s: string, ws2: string)
    requires AllSpace(ws1) && AllSpace(ws2)
    ensures Trim(ws1 + s + ws2) == Trim(s)
  {
    assert ws1 + s + ws2 == ws1 + (s + ws2);
    TrimStartSkipsSpace(ws1, s + ws2);
    TrimStartSpec(s);
    var k := |s| - |TrimStart(s)|;
    assert s == s[..k] + TrimStart(s);
    assert s + ws2 == s[..k] + (TrimStart(s) + ws2);
    TrimStartSkipsSpace(s[..k], TrimStart(s) + ws2);
    if TrimStart(s) == [] {
      assert TrimStart(s) + ws2 == ws2;
      assert TrimStart(ws2) == [] by {
        assert ws2 == ws2 + [];
        TrimStartSkipsSpace(ws2, []);
      }
    } else {
      assert TrimStart(TrimStart(s) + ws2) == TrimStart(s) + ws2;
      TrimEndSkipsSpace(TrimStart(s), ws2);
    }
  }

  /** `Number(s)` ignores white space added around `s`. */
  lemma ParseNumberIgnoresSurroundingSpace(ws1: string, s: string, ws2: string)
    requires AllSpace(ws1) && AllSpace(ws2)
    ensures ParseNumber(ws1 + s + ws2) == ParseNumber(s)
  {
    TrimIgnoresSurroundingSpace(ws1, s, ws2);
  }

  /** `Number` of an integer's decimal text, with white space around it, gives that integer back. */
  lemma ParseNumberOfPaddedIntText(ws1: string, i: int, ws2: string)
    requires AllSpace(ws1) && AllSpace(ws2)
    ensures ParseNumber(ws1 + IntToString(i) + ws2) == Some(i)
  {
    ParseNumberIgnoresSurroundingSpace(ws1, IntToString(i), ws2);
    ParseNumberOfIntText(i);
  }

  /** `Number` of an integer's decimal text gives that integer back. */
  lemma ParseNumberOfIntText(i: int)
    ensures ParseNumber(IntToString(i)) == Some(i)
  {
    var sign := if i < 0 then "-" else "";
    var n: nat := if i < 0 then -i else i;
    var d := Digits(n);
    assert IntToString(i) == sign + d;
    TrimIntText(i);
    DigitsValueOfDigits(n);
    DigitRunStops(d, "", 10);
    assert d + "" == d;
    NumberOfSignedDigits(sign, d);
  }
}
