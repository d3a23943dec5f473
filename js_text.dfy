/** The JavaScript string built-ins the roster code relies on, restricted to
    ASCII text: `trim`, `toUpperCase`, `includes`, `replace` with a one-character
    pattern, `substring`, `padStart(2, '0')`, `String(n)` on integers,
    `parseInt(s, 16)` and `Number(s)`. */
module JsText {
  import opened Options

  /** The ASCII characters that `String.prototype.trim` removes. */
  predicate IsSpace(c: char) {
    c == ' ' || '\t' <= c <= '\r'
  }

  predicate IsLower(c: char) {
    'a' <= c <= 'z'
  }

  predicate IsDecimalDigit(c: char) {
    '0' <= c <= '9'
  }

  predicate IsHexDigit(c: char) {
    '0' <= c <= '9' || 'a' <= c <= 'f' || 'A' <= c <= 'F'
  }

  predicate AllDecimal(s: string) {
    forall i :: 0 <= i < |s| ==> IsDecimalDigit(s[i])
  }

  predicate AllSpace(s: string) {
    forall i :: 0 <= i < |s| ==> IsSpace(s[i])
  }

  predicate AllHex(s: string) {
    forall i :: 0 <= i < |s| ==> IsHexDigit(s[i])
  }

  /** Neither end of `s` is white space. */
  predicate Trimmed(s: string) {
    s == [] || (!IsSpace(s[0]) && !IsSpace(s[|s| - 1]))
  }

  /** Leading white space removed. */
  function TrimStart(s: string): (r: string)
    ensures |r| <= |s|
    ensures r == [] || !IsSpace(r[0])
  {
    if s != [] && IsSpace(s[0]) then TrimStart(s[1..]) else s
  }

  lemma {:induction false} TrimStartSlice(s: string)
    ensures TrimStart(s) == s[|s| - |TrimStart(s)|..]
    ensures forall k :: 0 <= k < |s| - |TrimStart(s)| ==> IsSpace(s[k])
  {
    if s != [] && IsSpace(s[0]) {
      TrimStartSlice(s[1..]);
      assert forall k :: 1 <= k < |s| ==> s[k] == s[1..][k - 1];
    }
  }

  /** Trailing white space removed; the first character, if kept, is kept. */
  function TrimEnd(s: string): (r: string)
    ensures |r| <= |s|
    ensures r == [] || !IsSpace(r[|r| - 1])
    ensures r != [] ==> r[0] == s[0]
  {
    if s != [] && IsSpace(s[|s| - 1]) then TrimEnd(s[..|s| - 1]) else s
  }

  lemma {:induction false} TrimEndSlice(s: string)
    ensures TrimEnd(s) == s[..|TrimEnd(s)|]
    ensures forall k :: |TrimEnd(s)| <= k < |s| ==> IsSpace(s[k])
  {
    if s != [] && IsSpace(s[|s| - 1]) {
      TrimEndSlice(s[..|s| - 1]);
    }
  }

  /** `s.trim()`. */
  function Trim(s: string): (r: string)
    ensures Trimmed(r)
    ensures |r| <= |s|
    ensures Trimmed(s) ==> r == s
  {
    TrimEnd(TrimStart(s))
  }

  /** `s.trim()` is the slice of `s` left when the white space at both ends is
      removed: with `Trimmed`, this fixes the result. */
  lemma TrimSlice(s: string)
    ensures exists i, j :: 0 <= i <= j <= |s| && Trim(s) == s[i..j] && AllSpace(s[..i]) && AllSpace(s[j..])
  {
    var t := TrimStart(s);
    var r := TrimEnd(t);
    var i := |s| - |t|;
    TrimStartSlice(s);
    TrimEndSlice(t);
    assert r == s[i..i + |r|];
    assert AllSpace(s[..i]);
    assert AllSpace(s[i + |r|..]) by {
      assert forall k :: i + |r| <= k < |s| ==> s[k] == t[k - i];
    }
  }

  function UpperChar(c: char): (d: char)
    ensures !IsLower(d)
    ensures IsSpace(d) <==> IsSpace(c)
    ensures !IsLower(c) ==> d == c
  {
    if IsLower(c) then (c as int - 32) as char else c
  }

  /** `s.toUpperCase()` on ASCII text. */
  function Upper(s: string): (r: string)
    ensures |r| == |s|
    ensures forall i :: 0 <= i < |s| ==> r[i] == UpperChar(s[i])
  {
    seq(|s|, i requires 0 <= i < |s| => UpperChar(s[i]))
  }

  /** `s.includes(sub)`. */
  function Includes(s: string, sub: string): (b: bool)
    ensures b <==> exists i :: 0 <= i <= |s| && sub <= s[i..]
  {
    if sub <= s then assert s[0..] == s; true
    else if s == [] then false
    else
      var b := Includes(s[1..], sub);
      assert forall i :: 0 <= i < |s| ==> s[1..][i..] == s[i + 1..];
      assert b ==> exists i :: 0 <= i <= |s| && sub <= s[i..] by {
        if b {
          var i :| 0 <= i <= |s| - 1 && sub <= s[1..][i..];
          assert sub <= s[i + 1..];
        }
      }
      assert (exists i :: 0 <= i <= |s| && sub <= s[i..]) ==> b by {
        if i :| 0 <= i <= |s| && sub <= s[i..] {
          assert i != 0;
          assert sub <= s[1..][i - 1..];
        }
      }
      b
  }

  /** `s.replace(c, "")` for a one-character pattern: only the FIRST
      occurrence is removed. */
  function RemoveFirst(s: string, c: char): (r: string)
    ensures IndexOf(s, c).None? ==> r == s
    ensures IndexOf(s, c).Some? ==> r == s[..IndexOf(s, c).value] + s[IndexOf(s, c).value + 1..]
  {
    if s == [] then []
    else if s[0] == c then s[1..]
    else [s[0]] + RemoveFirst(s[1..], c)
  }

  /** `s.substring(start, end)` for `0 <= start <= end`: both bounds are
      clamped to the length of `s`. */
  function Substring(s: string, start: nat, end: nat): (r: string)
    requires start <= end
    ensures |r| <= end - start
    ensures end <= |s| ==> r == s[start..end]
  {
    var a := if start < |s| then start else |s|;
    var b := if end < |s| then end else |s|;
    s[a..b]
  }

  /** Index of the first occurrence of `c` in `s`. */
  function IndexOf(s: string, c: char): (r: Option<nat>)
    ensures r.None? <==> c !in s
    ensures r.Some? ==> r.value < |s| && s[r.value] == c && c !in s[..r.value]
  {
    if s == [] then None
    else if s[0] == c then Some(0)
    else match IndexOf(s[1..], c)
      case None => None
      case Some(i) => Some(i + 1)
  }

  function DigitChar(d: nat): (c: char)
    requires d < 10
    ensures IsDecimalDigit(c) && c as int - '0' as int == d
  {
    ('0' as int + d) as char
  }

  function DecimalDigitValue(c: char): (d: nat)
    requires IsDecimalDigit(c)
    ensures d < 10 && DigitChar(d) == c
  {
    c as int - '0' as int
  }

  /** The value of a hexadecimal digit (0 for any other character). */
  function HexDigitValue(c: char): (d: nat)
    ensures d < 16
  {
    if '0' <= c <= '9' then c as int - '0' as int
    else if 'a' <= c <= 'f' then c as int - 'a' as int + 10
    else if 'A' <= c <= 'F' then c as int - 'A' as int + 10
    else 0
  }

  /** The number denoted by a string of decimal digits. */
  function DecimalValue(s: string): nat
    requires AllDecimal(s)
  {
    if s == [] then 0
    else DecimalValue(s[..|s| - 1]) * 10 + DecimalDigitValue(s[|s| - 1])
  }

  /** The number denoted by a string of hexadecimal digits. */
  function HexValue(s: string): nat {
    if s == [] then 0
    else HexValue(s[..|s| - 1]) * 16 + HexDigitValue(s[|s| - 1])
  }

  /** The decimal numeral of `n`, without leading zeros. */
  function NatToDecimal(n: nat): (r: string)
    ensures 1 <= |r| && AllDecimal(r)
    ensures n < 10 <==> |r| == 1
    ensures 10 <= n < 100 <==> |r| == 2
    ensures 1000 <= n < 10000 ==> |r| == 4
  {
    if n < 10 then [DigitChar(n)]
    else NatToDecimal(n / 10) + [DigitChar(n % 10)]
  }

  /** `String(n)` for an integer `n`. */
  function IntToString(n: int): string {
    if n < 0 then "-" + NatToDecimal(-n) else NatToDecimal(n)
  }

  /** `s.padStart(2, '0')`. */
  function PadStart2(s: string): (r: string)
    ensures |r| == if |s| < 2 then 2 else |s|
    ensures r[|r| - |s|..] == s
    ensures forall i :: 0 <= i < |r| - |s| ==> r[i] == '0'
  {
    if |s| == 0 then "00" else if |s| == 1 then "0" + s else s
  }

  lemma {:induction false} DecimalOfNatToDecimal(n: nat)
    ensures DecimalValue(NatToDecimal(n)) == n
  {
    if n >= 10 {
      DecimalOfNatToDecimal(n / 10);
      var r := NatToDecimal(n);
      assert r[..|r| - 1] == NatToDecimal(n / 10);
    }
  }

  /** The two-digit numeral of `n`, with a leading zero below 10. */
  lemma TwoDigitNumeral(n: nat)
    requires n < 100
    ensures AllDecimal([DigitChar(n / 10), DigitChar(n % 10)])
    ensures DecimalValue([DigitChar(n / 10), DigitChar(n % 10)]) == n
  {
    var s := [DigitChar(n / 10), DigitChar(n % 10)];
    assert s[..1] == [DigitChar(n / 10)] && s[..1][..0] == [];
    assert DecimalValue(s[..1]) == n / 10;
    assert DecimalValue(s) == DecimalValue(s[..1]) * 10 + n % 10;
  }

  /** Leading zeros do not change the value of a numeral. */
  lemma {:induction false} DecimalLeadingZero(s: string)
    requires AllDecimal(s)
    ensures AllDecimal("0" + s) && DecimalValue("0" + s) == DecimalValue(s)
  {
    if s != [] {
      DecimalLeadingZero(s[..|s| - 1]);
      assert ("0" + s)[..|s|] == "0" + s[..|s| - 1];
    }
  }

  /** The longest prefix of `s` made of hexadecimal digits. */
  function HexPrefix(s: string): (r: string)
    ensures |r| <= |s|
  {
    if s != [] && IsHexDigit(s[0]) then [s[0]] + HexPrefix(s[1..]) else []
  }

  /** `parseInt(s, 16)`: leading white space is skipped, then the signed
      number is read; `None` is NaN. */
  function ParseIntHex(s: string): (r: Option<int>)
    ensures s == [] ==> r.None?
  {
    ParseSignedHex(TrimStart(s))
  }

  /** One optional sign, then the unsigned number, negated after `-`. */
  function ParseSignedHex(t: string): Option<int> {
    if t != [] && t[0] == '-' then
      match ParseUnsignedHex(t[1..])
      case None => None
      case Some(n) => Some(-(n as int))
    else if t != [] && t[0] == '+' then
      match ParseUnsignedHex(t[1..])
      case None => None
      case Some(n) => Some(n as int)
    else
      match ParseUnsignedHex(t)
      case None => None
      case Some(n) => Some(n as int)
  }

  /** An optional `0x`/`0X` prefix, then the longest run of hexadecimal
      digits; `None` when that run is empty. */
  function ParseUnsignedHex(u: string): Option<nat> {
    var digits := HexPrefix(DropHexMarker(u));
    if digits == [] then None else Some(HexValue(digits))
  }

  /** `u` without a leading `0x` or `0X`. */
  function DropHexMarker(u: string): string {
    if |u| >= 2 && u[0] == '0' && (u[1] == 'x' || u[1] == 'X') then u[2..] else u
  }

  /** A run of hexadecimal digits (not starting with `0x`) parses to its value. */
  lemma {:induction false} ParseIntHexOfDigits(s: string)
    requires AllHex(s) && s != []
    requires !(|s| >= 2 && s[0] == '0' && (s[1] == 'x' || s[1] == 'X'))
    ensures ParseIntHex(s) == Some(HexValue(s))
  {
    assert IsHexDigit(s[0]) && s[0] != '-' && s[0] != '+';
    assert [] + s == s;
    assert "" + (s + "") == s;
    ParseIntHexAfterSpace([], s);
    ParseUnsignedHexReads("", s, "");
  }

  /** Leading white space is skipped up to the first other character. */
  lemma {:induction false} TrimStartSkips(ws: string, rest: string)
    requires forall k :: 0 <= k < |ws| ==> IsSpace(ws[k])
    requires rest == [] || !IsSpace(rest[0])
    ensures TrimStart(ws + rest) == rest
  {
    if ws == [] {
      assert ws + rest == rest;
    } else {
      assert (ws + rest)[0] == ws[0];
      assert (ws + rest)[1..] == ws[1..] + rest;
      TrimStartSkips(ws[1..], rest);
    }
  }

  /** The digit run stops at the first character that is not a hexadecimal
      digit. */
  lemma {:induction false} HexPrefixStops(h: string, t: string)
    requires AllHex(h) && (t == [] || !IsHexDigit(t[0]))
    ensures HexPrefix(h + t) == h
  {
    if h == [] {
      assert h + t == t;
    } else {
      assert (h + t)[0] == h[0];
      assert (h + t)[1..] == h[1..] + t;
      HexPrefixStops(h[1..], t);
    }
  }

  /** White space before the number is ignored. */
  lemma {:induction false} ParseIntHexAfterSpace(ws: string, rest: string)
    requires forall k :: 0 <= k < |ws| ==> IsSpace(ws[k])
    requires rest == [] || !IsSpace(rest[0])
    ensures ParseIntHex(ws + rest) == ParseSignedHex(rest)
  {
    TrimStartSkips(ws, rest);
  }

  /** An optional `0x` prefix, then a run of hexadecimal digits that the next
      character does not continue. */
  lemma {:induction false} ParseUnsignedHexReads(prefix: string, h: string, t: string)
    requires prefix == "" || prefix == "0x" || prefix == "0X"
    requires AllHex(h) && h != [] && (t == [] || !IsHexDigit(t[0]))
    requires prefix == "" ==> !(h == "0" && t != [] && (t[0] == 'x' || t[0] == 'X'))
    ensures ParseUnsignedHex(prefix + (h + t)) == Some(HexValue(h))
  {
    DropHexMarkerOfRun(prefix, h, t);
    HexPrefixStops(h, t);
  }

  lemma {:induction false} DropHexMarkerOfRun(prefix: string, h: string, t: string)
    requires prefix == "" || prefix == "0x" || prefix == "0X"
    requires AllHex(h) && h != []
    requires prefix == "" ==> !(h == "0" && t != [] && (t[0] == 'x' || t[0] == 'X'))
    ensures DropHexMarker(prefix + (h + t)) == h + t
  {
    var v := h + t;
    var u := prefix + v;
    if prefix == "" {
      assert u == v;
      if |v| >= 2 && v[0] == '0' {
        assert |h| >= 2 ==> IsHexDigit(v[1]);
      }
    } else {
      assert u[2..] == v;
    }
  }

  /** `parseInt(s, 16)` on white space, an optional sign, an optional `0x`
      prefix and a run of hexadecimal digits followed by anything that does
      not continue the run: the value of the run, negated after a `-`. */
  lemma {:induction false} ParseIntHexReads(ws: string, sign: string, prefix: string, h: string, t: string)
    requires forall k :: 0 <= k < |ws| ==> IsSpace(ws[k])
    requires sign == "" || sign == "-" || sign == "+"
    requires prefix == "" || prefix == "0x" || prefix == "0X"
    requires AllHex(h) && h != [] && (t == [] || !IsHexDigit(t[0]))
    requires prefix == "" ==> !(h == "0" && t != [] && (t[0] == 'x' || t[0] == 'X'))
    ensures ParseIntHex(ws + (sign + (prefix + (h + t))))
            == Some(if sign == "-" then -(HexValue(h) as int) else HexValue(h) as int)
  {
    var u := prefix + (h + t);
    var rest := sign + u;
    RunStart(sign, prefix, h, t);
    ParseUnsignedHexReads(prefix, h, t);
    ParseSignedHexReads(sign, u, HexValue(h));
    ParseIntHexAfterSpace(ws, rest);
  }

  /** A run of digits after an optional prefix starts with neither a sign nor
      white space, and neither does the run after an optional sign. */
  lemma RunStart(sign: string, prefix: string, h: string, t: string)
    requires sign == "" || sign == "-" || sign == "+"
    requires prefix == "" || prefix == "0x" || prefix == "0X"
    requires AllHex(h) && h != []
    ensures var u := prefix + (h + t);
      && u != [] && u[0] != '-' && u[0] != '+'
      && sign + u != [] && !IsSpace((sign + u)[0])
  {
    var u := prefix + (h + t);
    assert IsHexDigit(h[0]);
    assert u[0] == if prefix == "" then h[0] else '0';
    assert (sign + u)[0] == if sign == "" then u[0] else sign[0];
  }

  /** One sign before an unsigned number that starts with no sign. */
  lemma {:induction false} ParseSignedHexReads(sign: string, u: string, n: nat)
    requires sign == "" || sign == "-" || sign == "+"
    requires u != [] && u[0] != '-' && u[0] != '+'
    requires ParseUnsignedHex(u) == Some(n)
    ensures ParseSignedHex(sign + u) == Some(if sign == "-" then -(n as int) else n as int)
  {
    if sign == "" {
      assert sign + u == u;
    } else {
      assert (sign + u)[0] == sign[0] && (sign + u)[1..] == u;
    }
  }

  /** Text that starts with neither white space, a sign nor a hexadecimal
      digit is NaN. */
  lemma ParseIntHexNaN(s: string)
    requires s != [] && !IsSpace(s[0]) && !IsHexDigit(s[0]) && s[0] != '-' && s[0] != '+'
    ensures ParseIntHex(s).None?
  {
  }

  /** `Number(s)` on the strings the model admits: blank text is 0, a run of
      decimal digits (surrounded by white space) is its value, anything else is
      `None` (NaN). */
  function JsNumber(s: string): (r: Option<nat>)
    ensures Trim(s) == [] ==> r == Some(0)
    ensures AllDecimal(s) && s != [] ==> r == Some(DecimalValue(s))
  {
    var t := Trim(s);
    if t == [] then Some(0)
    else if AllDecimal(t) then Some(DecimalValue(t))
    else None
  }
}
