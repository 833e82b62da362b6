/**
 * The JavaScript primitives the bridge client builds its strings and numbers with:
 * the relational `<` on strings, `parseInt`, `Number.prototype.toString(16)`,
 * `String.prototype.slice` and `split`, `Buffer.prototype.toString('hex')` and the
 * `left-pad` package. Numbers are unbounded integers; `NaN` is `None`.
 */
module JsText {
  import opened Wrappers

  type Byte = b: nat | b < 256

  // ---------------------------------------------------------------------------
  // String comparison
  // ---------------------------------------------------------------------------

  /** `a < b` on two strings: lexicographic by character, a proper prefix being smaller. */
  predicate StrLess(a: string, b: string)
  {
    if a == [] then b != []
    else if b == [] then false
    else if a[0] != b[0] then a[0] < b[0]
    else StrLess(a[1..], b[1..])
  }

  /** String `<` is a strict total order: exactly one of a == b, a < b, b < a holds. */
  lemma {:induction false} StrLessTrichotomy(a: string, b: string)
    ensures a == b || StrLess(a, b) || StrLess(b, a)
    ensures !(StrLess(a, b) && StrLess(b, a))
    ensures !StrLess(a, a)
  {
    if a != [] && b != [] && a[0] == b[0] {
      StrLessTrichotomy(a[1..], b[1..]);
      if a[1..] == b[1..] {
        assert a == [a[0]] + a[1..] && b == [b[0]] + b[1..];
      }
    }
    if a != [] {
      StrLessTrichotomy(a[1..], a[1..]);
    }
  }

  /** A common prefix does not change how two strings compare. */
  lemma {:induction false} StrLessCommonPrefix(p: string, a: string, b: string)
    ensures StrLess(p + a, p + b) == StrLess(a, b)
  {
    if p != [] {
      assert (p + a)[0] == p[0] == (p + b)[0];
      assert (p + a)[1..] == p[1..] + a && (p + b)[1..] == p[1..] + b;
      StrLessCommonPrefix(p[1..], a, b);
    } else {
      assert p + a == a && p + b == b;
    }
  }

  // ---------------------------------------------------------------------------
  // Digits and parseInt
  // ---------------------------------------------------------------------------

  /** The value parseInt gives a character as a digit; 36 for a character that is no digit. */
  function DigitValue(c: char): nat
  {
    if '0' <= c <= '9' then c as nat - '0' as nat
    else if 'a' <= c <= 'z' then c as nat - 'a' as nat + 10
    else if 'A' <= c <= 'Z' then c as nat - 'A' as nat + 10
    else 36
  }

  predicate IsDigit(c: char, radix: nat)
  {
    DigitValue(c) < radix
  }

  /** The characters `Number.prototype.toString(16)` and `Buffer.toString('hex')` write. */
  predicate IsLowerHex(c: char)
  {
    '0' <= c <= '9' || 'a' <= c <= 'f'
  }

  predicate AllLowerHex(s: string)
  {
    forall i :: 0 <= i < |s| ==> IsLowerHex(s[i])
  }

  /** Hex digits of either case, as parseInt reads them. */
  predicate AllHexDigits(s: string)
  {
    forall i :: 0 <= i < |s| ==> IsDigit(s[i], 16)
  }

  /** The value of a digit string read most significant digit first. */
  function DigitsValue(s: string, radix: nat): nat
  {
    if s == [] then 0
    else DigitsValue(s[..|s| - 1], radix) * radix + DigitValue(s[|s| - 1])
  }

  /** The length of the longest prefix of `s` made of digits of `radix`. */
  function DigitRun(s: string, radix: nat): (n: nat)
    ensures n <= |s|
    ensures forall i :: 0 <= i < n ==> IsDigit(s[i], radix)
    ensures n < |s| ==> !IsDigit(s[n], radix)
  {
    if s == [] || !IsDigit(s[0], radix) then 0 else 1 + DigitRun(s[1..], radix)
  }

  /** The white space parseInt skips before the number (ASCII and the two no-break spaces). */
  predicate IsWhite(c: char)
  {
    c == ' ' || c == '\t' || c == '\n' || c == '\r' || c as int == 0x0B || c as int == 0x0C
    || c as int == 0xA0 || c as int == 0xFEFF
  }

  function TrimStart(s: string): (t: string)
    ensures t == [] || !IsWhite(t[0])
  {
    if s != [] && IsWhite(s[0]) then TrimStart(s[1..]) else s
  }

  /** `parseInt(s)` (Auto) and `parseInt(s, 16)` (Hex). */
  datatype Radix = Auto | Hex

  /**
   * parseInt: skip leading white space, take an optional sign, strip a `0x`/`0X`
   * prefix (which selects base 16 when no radix is given, base 10 otherwise), and
   * read the longest run of digits; no digit at all gives `NaN` (None).
   */
  function ParseInt(s: string, radix: Radix): Option<int>
  {
    var t := TrimStart(s);
    var negative := t != [] && t[0] == '-';
    var u := if t != [] && (t[0] == '-' || t[0] == '+') then t[1..] else t;
    var prefixed := |u| >= 2 && u[0] == '0' && (u[1] == 'x' || u[1] == 'X');
    var base := if prefixed || radix == Hex then 16 else 10;
    var digits := if prefixed then u[2..] else u;
    var n := DigitRun(digits, base);
    if n == 0 then None
    else
      var v: int := DigitsValue(digits[..n], base);
      Some(if negative then -v else v)
  }

  // ---------------------------------------------------------------------------
  // Formatting
  // ---------------------------------------------------------------------------

  function HexChar(d: nat): (c: char)
    requires d < 16
    ensures IsLowerHex(c) && DigitValue(c) == d
  {
    if d < 10 then ('0' as nat + d) as char else ('a' as nat + d - 10) as char
  }

  /** `n.toString(16)`: lower-case hexadecimal without leading zeros. */
  function ToHex(n: nat): (r: string)
    ensures r != [] && AllLowerHex(r)
  {
    if n < 16 then [HexChar(n)] else ToHex(n / 16) + [HexChar(n % 16)]
  }

  function Repeat(c: char, n: nat): (r: string)
    ensures |r| == n && forall i :: 0 <= i < n ==> r[i] == c
  {
    if n == 0 then [] else [c] + Repeat(c, n - 1)
  }

  /** `leftPad(s, len, c)`: `s` preceded by as many `c` as it takes to reach `len`. */
  function LeftPad(s: string, len: nat, c: char): (r: string)
    ensures |r| == if |s| >= len then |s| else len
    ensures r == Repeat(c, |r| - |s|) + s
  {
    if |s| >= len then s else Repeat(c, len - |s|) + s
  }

  /** `s.slice(k)` for a non-negative `k`: empty once `k` passes the end. */
  function Slice(s: string, k: nat): (r: string)
    ensures k <= |s| ==> r == s[k..]
    ensures k > |s| ==> r == []
  {
    if k <= |s| then s[k..] else []
  }

  function ByteHex(b: Byte): string
  {
    [HexChar(b / 16), HexChar(b % 16)]
  }

  /** `buf.toString('hex')`: two lower-case digits per byte and no `0x`. */
  function BytesToHex(bs: seq<Byte>): (r: string)
    ensures |r| == 2 * |bs| && AllLowerHex(r)
  {
    if bs == [] then [] else ByteHex(bs[0]) + BytesToHex(bs[1..])
  }

  /** `s.split(sep)` for a one-character separator. */
  function Split(s: string, sep: char): (parts: seq<string>)
    ensures |parts| >= 1
  {
    if s == [] then [""]
    else
      var rest := Split(s[1..], sep);
      if s[0] == sep then [""] + rest else [[s[0]] + rest[0]] + rest[1..]
  }

  // ---------------------------------------------------------------------------
  // Lemmas
  // ---------------------------------------------------------------------------

  /** toString(16) and the base-16 reading of its digits are inverse. */
  lemma {:induction false} ToHexValue(n: nat)
    ensures DigitsValue(ToHex(n), 16) == n
  {
    if n >= 16 {
      ToHexValue(n / 16);
      var s := ToHex(n / 16) + [HexChar(n % 16)];
      assert s[..|s| - 1] == ToHex(n / 16);
    }
  }

  /** Leading zeros do not change the value of a digit string. */
  lemma {:induction false} LeadingZeros(k: nat, s: string, radix: nat)
    ensures DigitsValue(Repeat('0', k) + s, radix) == DigitsValue(s, radix)
  {
    if s == [] {
      ZerosValue(k, radix);
      assert Repeat('0', k) + s == Repeat('0', k);
    } else {
      var t := Repeat('0', k) + s;
      assert t[..|t| - 1] == Repeat('0', k) + s[..|s| - 1];
      LeadingZeros(k, s[..|s| - 1], radix);
    }
  }

  lemma {:induction false} ZerosValue(k: nat, radix: nat)
    ensures DigitsValue(Repeat('0', k), radix) == 0
  {
    if k > 0 {
      var z := Repeat('0', k);
      assert z[..k - 1] == Repeat('0', k - 1);
      ZerosValue(k - 1, radix);
    }
  }

  lemma {:induction false} DigitRunAll(s: string, radix: nat)
    requires forall i :: 0 <= i < |s| ==> IsDigit(s[i], radix)
    ensures DigitRun(s, radix) == |s|
  {
    if s != [] {
      DigitRunAll(s[1..], radix);
    }
  }

  /**
   * A reply word `0x` + zero-padded hex digits reads back as the number it encodes,
   * with or without an explicit radix 16.
   */
  lemma HexWordRoundTrip(n: nat, width: nat, radix: Radix)
    ensures ParseInt("0x" + LeftPad(ToHex(n), width, '0'), radix) == Some(n)
  {
    var h := ToHex(n);
    var digits := LeftPad(h, width, '0');
    assert AllLowerHex(digits) by {
      forall i | 0 <= i < |digits| ensures IsLowerHex(digits[i]) {
        if i >= |digits| - |h| {
          assert digits[i] == h[i - (|digits| - |h|)];
        }
      }
    }
    HexLiteralValue(digits);
    ToHexValue(n);
    if |h| < width {
      assert digits == Repeat('0', width - |h|) + h;
      LeadingZeros(width - |h|, h, 16);
    }
  }

  /** A `0x`-prefixed string of hex digits, of either case, reads as the value of its digits. */
  lemma HexLiteralValue(digits: string)
    requires digits != [] && AllHexDigits(digits)
    ensures ParseInt("0x" + digits, Auto) == Some(DigitsValue(digits, 16))
    ensures ParseInt("0x" + digits, Hex) == Some(DigitsValue(digits, 16))
  {
    var s := "0x" + digits;
    assert TrimStart(s) == s;
    assert s[2..] == digits;
    DigitRunAll(digits, 16);
    assert digits[..|digits|] == digits;
  }

  /** Mixed-case digits, as in a checksummed address, read as their value. */
  lemma MixedCaseHexExample()
    ensures ParseInt("0xAbC", Auto) == Some(2748)
    ensures ParseInt("0xAbC", Hex) == Some(2748)
  {
    HexLiteralValue("AbC");
    assert "0x" + "AbC" == "0xAbC";
    assert "AbC"[..2] == "Ab" && "Ab"[..1] == "A";
  }

  function Pow(b: nat, e: nat): nat
  {
    if e == 0 then 1 else b * Pow(b, e - 1)
  }

  lemma MulDistributes(d: nat, p: nat, m: nat, r: nat)
    ensures (d * p + m) * r == d * (r * p) + m * r
  {
  }

  lemma MulMonotone(a: nat, b: nat, c: nat)
    requires a <= b
    ensures a * c <= b * c
  {
  }

  /** The same value read with the leading digit split off. */
  lemma {:induction false} DigitsValueFront(s: string, radix: nat)
    requires s != []
    ensures DigitsValue(s, radix) == DigitValue(s[0]) * Pow(radix, |s| - 1) + DigitsValue(s[1..], radix)
  {
    var n := |s|;
    if n == 1 {
      assert s[..0] == [] && s[1..] == [];
    } else {
      var init := s[..n - 1];
      var tail := s[1..];
      DigitsValueFront(init, radix);
      assert init[0] == s[0];
      assert tail[..|tail| - 1] == init[1..];
      assert tail[|tail| - 1] == s[n - 1];
      var d, p, m := DigitValue(s[0]), Pow(radix, n - 2), DigitsValue(init[1..], radix);
      var last := DigitValue(s[n - 1]);
      assert DigitsValue(tail, radix) == m * radix + last;
      assert DigitsValue(s, radix) == (d * p + m) * radix + last;
      MulDistributes(d, p, m, radix);
    }
  }

  /** A run of `k` digits is worth less than `radix` to the power `k`. */
  lemma {:induction false} DigitsValueBound(s: string, radix: nat)
    requires forall i :: 0 <= i < |s| ==> IsDigit(s[i], radix)
    ensures DigitsValue(s, radix) < Pow(radix, |s|)
  {
    if s != [] {
      var init := s[..|s| - 1];
      DigitsValueBound(init, radix);
      var v, p := DigitsValue(init, radix), Pow(radix, |s| - 1);
      var last := DigitValue(s[|s| - 1]);
      assert DigitsValue(s, radix) == v * radix + last;
      assert last < radix;
      StepBound(v, p, last, radix);
      assert Pow(radix, |s|) == radix * p;
    }
  }

  lemma StepBound(v: nat, p: nat, last: nat, radix: nat)
    requires v < p && last < radix
    ensures v * radix + last < radix * p
  {
    MulMonotone(v + 1, p, radix);
    assert (v + 1) * radix == v * radix + radix;
  }

  lemma TopDigitDominates(dx: nat, dy: nat, p: nat, mx: nat, my: nat)
    requires dx < dy && mx < p
    ensures dx * p + mx < dy * p + my
  {
    MulMonotone(dx + 1, dy, p);
    assert (dx + 1) * p == dx * p + p;
  }

  lemma {:induction false} SmallerPrefixDigitSmaller(x: string, y: string)
    requires |x| == |y| && AllLowerHex(x) && AllLowerHex(y)
    requires StrLess(x, y)
    ensures DigitsValue(x, 16) < DigitsValue(y, 16)
  {
    assert x != [];
    DigitsValueFront(x, 16);
    DigitsValueFront(y, 16);
    var p := Pow(16, |x| - 1);
    var dx, dy := DigitValue(x[0]), DigitValue(y[0]);
    var mx, my := DigitsValue(x[1..], 16), DigitsValue(y[1..], 16);
    if x[0] != y[0] {
      assert dx < dy;
      assert forall i :: 0 <= i < |x[1..]| ==> IsDigit(x[1..][i], 16);
      DigitsValueBound(x[1..], 16);
      TopDigitDominates(dx, dy, p, mx, my);
    } else {
      SmallerPrefixDigitSmaller(x[1..], y[1..]);
    }
  }

  /**
   * On hex strings of equal length in lower case, string order and numeric order agree.
   */
  lemma HexOrderMatchesValue(x: string, y: string)
    requires |x| == |y| && AllLowerHex(x) && AllLowerHex(y)
    ensures StrLess(x, y) <==> DigitsValue(x, 16) < DigitsValue(y, 16)
  {
    StrLessTrichotomy(x, y);
    if StrLess(x, y) {
      SmallerPrefixDigitSmaller(x, y);
    } else if StrLess(y, x) {
      SmallerPrefixDigitSmaller(y, x);
    }
  }

  lemma {:induction false} SplitNoSeparator(s: string, sep: char)
    requires sep !in s
    ensures Split(s, sep) == [s]
  {
    if s != [] {
      SplitNoSeparator(s[1..], sep);
      assert [s[0]] + s[1..] == s;
    }
  }

  /** Splitting `a` + sep + `b` gives back `a` and `b` when neither holds the separator. */
  lemma {:induction false} SplitJoined(a: string, b: string, sep: char)
    requires sep !in a && sep !in b
    ensures Split(a + [sep] + b, sep) == [a, b]
  {
    var s := a + [sep] + b;
    if a == [] {
      assert s[1..] == b;
      SplitNoSeparator(b, sep);
    } else {
      assert s[1..] == a[1..] + [sep] + b;
      SplitJoined(a[1..], b, sep);
      assert [a[0]] + a[1..] == a;
    }
  }

  /** Two runs of the same character make one run as long as both. */
  lemma {:induction false} RepeatAdd(c: char, m: nat, n: nat)
    ensures Repeat(c, m) + Repeat(c, n) == Repeat(c, m + n)
  {
    if m > 0 {
      RepeatAdd(c, m - 1, n);
      assert Repeat(c, m) + Repeat(c, n) == [c] + (Repeat(c, m - 1) + Repeat(c, n));
    }
  }

  /** Padding ignores leading zeros already present as long as the result is not longer. */
  lemma PadAbsorbsZeros(k: nat, s: string, len: nat)
    requires k + |s| <= len
    ensures LeftPad(Repeat('0', k) + s, len, '0') == LeftPad(s, len, '0')
  {
    var z := len - k - |s|;
    RepeatAdd('0', z, k);
    calc {
      LeftPad(Repeat('0', k) + s, len, '0');
      Repeat('0', z) + (Repeat('0', k) + s);
      (Repeat('0', z) + Repeat('0', k)) + s;
      Repeat('0', len - |s|) + s;
      LeftPad(s, len, '0');
    }
  }
}
