/** String operations of Python's `str`, `int()` and `os.path` as the
    modelled code uses them.  Case mapping is ASCII-only; `int()` accepts
    ASCII digits without `_` separators. */
module Text {
  import opened Wrappers

  // ---------------------------------------------------------------------
  // Whitespace and str.strip()
  // ---------------------------------------------------------------------

  /** `c.isspace()` for Python 3 strings. */
  predicate IsSpace(c: char) {
    c == ' ' || '\t' <= c <= '\r' || '\U{1c}' <= c <= '\U{1f}'
    || c == '\U{85}' || c == '\U{a0}' || c == '\U{1680}'
    || '\U{2000}' <= c <= '\U{200a}' || c == '\U{2028}' || c == '\U{2029}'
    || c == '\U{202f}' || c == '\U{205f}' || c == '\U{3000}'
  }

  predicate NoSpace(s: string) {
    forall i :: 0 <= i < |s| ==> !IsSpace(s[i])
  }

  function LeadingSpaces(s: string): (n: nat)
    ensures n <= |s|
    ensures forall i :: 0 <= i < n ==> IsSpace(s[i])
    ensures n < |s| ==> !IsSpace(s[n])
  {
    if |s| > 0 && IsSpace(s[0]) then 1 + LeadingSpaces(s[1..]) else 0
  }

  function TrailingSpaces(s: string): (n: nat)
    ensures n <= |s|
    ensures forall i :: |s| - n <= i < |s| ==> IsSpace(s[i])
    ensures n < |s| ==> !IsSpace(s[|s| - n - 1])
  {
    if |s| > 0 && IsSpace(s[|s| - 1]) then 1 + TrailingSpaces(s[..|s| - 1]) else 0
  }

  /** `s.strip()`: drop leading and trailing whitespace. */
  function Strip(s: string): (r: string)
    ensures |r| <= |s|
    ensures r != [] ==> !IsSpace(r[0]) && !IsSpace(r[|r| - 1])
    ensures NoSpace(s) ==> r == s
  {
    var t := s[LeadingSpaces(s)..];
    t[..|t| - TrailingSpaces(t)]
  }

  lemma StripIdempotent(s: string)
    ensures Strip(Strip(s)) == Strip(s)
  {
    var r := Strip(s);
    if r != [] {
      assert LeadingSpaces(r) == 0;
      assert TrailingSpaces(r) == 0;
    }
  }

  // ---------------------------------------------------------------------
  // ASCII case mapping, prefixes and substrings
  // ---------------------------------------------------------------------

  function LowerChar(c: char): char {
    if 'A' <= c <= 'Z' then (c as int + 32) as char else c
  }

  function UpperChar(c: char): char {
    if 'a' <= c <= 'z' then (c as int - 32) as char else c
  }

  /** `s.lower()` */
  function Lower(s: string): (r: string)
    ensures |r| == |s|
    ensures forall i :: 0 <= i < |s| ==> r[i] == LowerChar(s[i])
  {
    seq(|s|, i requires 0 <= i < |s| => LowerChar(s[i]))
  }

  /** `s.upper()` */
  function Upper(s: string): (r: string)
    ensures |r| == |s|
    ensures forall i :: 0 <= i < |s| ==> r[i] == UpperChar(s[i])
  {
    seq(|s|, i requires 0 <= i < |s| => UpperChar(s[i]))
  }

  /** `s.startswith(p)` */
  predicate StartsWith(s: string, p: string) {
    |p| <= |s| && s[..|p|] == p
  }

  /** `t in s` for strings */
  predicate Contains(s: string, t: string)
    decreases |s|
  {
    StartsWith(s, t) || (|s| > 0 && Contains(s[1..], t))
  }

  /** Every character of a substring occurs in the string. */
  lemma {:induction false} ContainsChars(s: string, t: string)
    requires Contains(s, t)
    ensures forall k :: 0 <= k < |t| ==> t[k] in s
    decreases |s|
  {
    if StartsWith(s, t) {
      forall k | 0 <= k < |t| ensures t[k] in s {
        assert t[k] == s[k];
      }
    } else {
      ContainsChars(s[1..], t);
      forall k | 0 <= k < |t| ensures t[k] in s {
        assert t[k] in s[1..];
      }
    }
  }

  /** A string occurs in itself followed by anything. */
  lemma ContainsPrefix(s: string, t: string)
    requires StartsWith(s, t)
    ensures Contains(s, t)
  {
  }

  /** A string occurs anywhere it is spliced in. */
  lemma {:induction false} ContainsInside(a: string, t: string, b: string)
    ensures Contains(a + t + b, t)
    decreases |a|
  {
    if a == [] {
      assert a + t + b == t + b;
      assert StartsWith(t + b, t);
    } else {
      ContainsInside(a[1..], t, b);
      assert (a + t + b)[1..] == a[1..] + t + b;
    }
  }

  /** Containing a string means containing each of its prefixes. */
  lemma {:induction false} ContainsPrefixOf(s: string, t: string, u: string)
    requires Contains(s, t + u)
    ensures Contains(s, t)
    decreases |s|
  {
    if StartsWith(s, t + u) {
      assert s[..|t|] == (t + u)[..|t|] == t;
    } else {
      ContainsPrefixOf(s[1..], t, u);
    }
  }

  // ---------------------------------------------------------------------
  // os.path.basename / os.path.splitext (Windows separators)
  // ---------------------------------------------------------------------

  predicate IsSep(c: char) {
    c == '/' || c == '\\'
  }

  /** Index just after the last path separator (0 when there is none). */
  function BaseStart(p: string): (k: nat)
    ensures k <= |p|
    ensures forall i :: k <= i < |p| ==> !IsSep(p[i])
    ensures k > 0 ==> IsSep(p[k - 1])
  {
    if p == [] then 0 else if IsSep(p[|p| - 1]) then |p| else BaseStart(p[..|p| - 1])
  }

  /** `os.path.basename(p)` */
  function Basename(p: string): (b: string)
    ensures forall i :: 0 <= i < |b| ==> !IsSep(b[i])
  {
    p[BaseStart(p)..]
  }

  /** The basename of "dir/name" is the name. */
  lemma {:induction false} BasenameAfterSep(d: string, n: string)
    requires forall i :: 0 <= i < |n| ==> !IsSep(n[i])
    ensures Basename(d + "/" + n) == n
    decreases |n|
  {
    var p := d + "/" + n;
    if n == [] {
      assert IsSep(p[|p| - 1]);
    } else {
      var n' := n[..|n| - 1];
      BasenameAfterSep(d, n');
      assert p[..|p| - 1] == d + "/" + n';
      assert BaseStart(p) == BaseStart(d + "/" + n') == |d| + 1;
      assert p[|d| + 1..] == n;
    }
  }

  function LastIndexOf(s: string, c: char): (r: Option<nat>)
    ensures r.Some? ==> r.value < |s| && s[r.value] == c
    ensures r.Some? ==> forall i :: r.value < i < |s| ==> s[i] != c
    ensures r.None? ==> forall i :: 0 <= i < |s| ==> s[i] != c
  {
    if s == [] then None
    else if s[|s| - 1] == c then Some(|s| - 1)
    else LastIndexOf(s[..|s| - 1], c)
  }

  predicate AllDots(s: string) {
    forall i :: 0 <= i < |s| ==> s[i] == '.'
  }

  /** `os.path.splitext(b)[0]` for a name without separators: the part
      before the last dot, unless only dots precede it (".bashrc"). */
  function Stem(b: string): string {
    match LastIndexOf(b, '.')
    case None => b
    case Some(d) => if AllDots(b[..d]) then b else b[..d]
  }

  // ---------------------------------------------------------------------
  // Decimal digits: f"{n}" and int(s)
  // ---------------------------------------------------------------------

  predicate IsDigit(c: char) {
    '0' <= c <= '9'
  }

  predicate AllDigits(s: string) {
    forall i :: 0 <= i < |s| ==> IsDigit(s[i])
  }

  function DigitChar(d: int): char
    requires 0 <= d < 10
  {
    ('0' as int + d) as char
  }

  /** `f"{n}"` for a natural number. */
  function NatToDec(n: nat): (s: string)
    ensures |s| > 0 && AllDigits(s)
  {
    if n < 10 then [DigitChar(n)] else NatToDec(n / 10) + [DigitChar(n % 10)]
  }

  function DecDigitsValue(s: string): nat
    requires AllDigits(s)
  {
    if s == [] then 0 else DecDigitsValue(s[..|s| - 1]) * 10 + (s[|s| - 1] as int - '0' as int)
  }

  lemma {:induction false} DecRoundTrip(n: nat)
    ensures DecDigitsValue(NatToDec(n)) == n
  {
    if n >= 10 {
      var s := NatToDec(n);
      assert s[..|s| - 1] == NatToDec(n / 10);
      DecRoundTrip(n / 10);
    }
  }

  /** Different numbers print differently. */
  lemma NatToDecInjective(a: nat, b: nat)
    requires NatToDec(a) == NatToDec(b)
    ensures a == b
  {
    DecRoundTrip(a);
    DecRoundTrip(b);
  }

  /** Optional leading sign: (negative?, rest). */
  function SplitSign(t: string): (bool, string) {
    if |t| > 0 && (t[0] == '+' || t[0] == '-') then (t[0] == '-', t[1..]) else (false, t)
  }

  /** `int(s)`: surrounding whitespace, an optional sign, decimal digits. */
  function ParseIntBase10(s: string): Option<int> {
    var (neg, d) := SplitSign(Strip(s));
    if d != [] && AllDigits(d) then
      var v: int := DecDigitsValue(d);
      Some(if neg then -v else v)
    else None
  }

  lemma ParseDecRoundTrip(n: nat)
    ensures ParseIntBase10(NatToDec(n)) == Some(n)
  {
    var s := NatToDec(n);
    assert NoSpace(s);
    DecRoundTrip(n);
  }

  // ---------------------------------------------------------------------
  // Hexadecimal digits: f"{n:04x}" and int(s, 16)
  // ---------------------------------------------------------------------

  function HexValue(c: char): Option<nat> {
    if '0' <= c <= '9' then Some(c as int - '0' as int)
    else if 'a' <= c <= 'f' then Some(c as int - 'a' as int + 10)
    else if 'A' <= c <= 'F' then Some(c as int - 'A' as int + 10)
    else None
  }

  predicate AllHex(s: string) {
    forall i :: 0 <= i < |s| ==> HexValue(s[i]).Some?
  }

  function HexDigitsValue(s: string): nat
    requires AllHex(s)
  {
    if s == [] then 0 else HexDigitsValue(s[..|s| - 1]) * 16 + HexValue(s[|s| - 1]).value
  }

  /** `int(s, 16)`: surrounding whitespace, an optional sign, an optional
      `0x`/`0X` prefix, hexadecimal digits. */
  function ParseIntBase16(s: string): Option<int> {
    var (neg, u) := SplitSign(Strip(s));
    var d := if |u| >= 2 && u[0] == '0' && (u[1] == 'x' || u[1] == 'X') then u[2..] else u;
    if d != [] && AllHex(d) then
      var v: int := HexDigitsValue(d);
      Some(if neg then -v else v)
    else None
  }

  function HexDigit(d: int): char
    requires 0 <= d < 16
  {
    if d < 10 then ('0' as int + d) as char else ('a' as int + d - 10) as char
  }

  function Pow16(k: nat): (p: nat)
    ensures p >= 1
  {
    if k == 0 then 1 else 16 * Pow16(k - 1)
  }

  /** The last `k` lowercase hexadecimal digits of `n`, zero-padded. */
  function HexFixed(n: nat, k: nat): (s: string)
    ensures |s| == k
    ensures AllHex(s)
    ensures forall i :: 0 <= i < k ==> s[i] != 'x' && s[i] != 'X' && !IsSpace(s[i])
    ensures forall i :: 0 <= i < k ==> s[i] != '+' && s[i] != '-'
  {
    if k == 0 then [] else HexFixed(n / 16, k - 1) + [HexDigit(n % 16)]
  }

  lemma {:induction false} HexFixedValue(n: nat, k: nat)
    ensures HexDigitsValue(HexFixed(n, k)) == n % Pow16(k)
  {
    if k > 0 {
      var s := HexFixed(n, k);
      assert s[..k - 1] == HexFixed(n / 16, k - 1);
      HexFixedValue(n / 16, k - 1);
      DivModPow16(n, k);
    }
  }

  /** Euclidean division is determined by quotient and remainder. */
  lemma DivModUnique(n: int, m: int, q: int, r: int)
    requires m > 0 && 0 <= r < m && n == q * m + r
    ensures n / m == q && n % m == r
  {
    var q0, r0 := n / m, n % m;
    assert (q - q0) * m == r0 - r by {
      assert q * m + r == q0 * m + r0;
    }
    if q > q0 {
      MulAtLeast(q - q0, m);
    } else if q < q0 {
      MulAtLeast(q0 - q, m);
    }
  }

  lemma MulAtLeast(a: int, m: int)
    requires a >= 1 && m >= 0
    ensures a * m >= m
  {
    assert a * m == (a - 1) * m + m;
  }

  lemma DivModPow16(n: nat, k: nat)
    requires k > 0
    ensures (n / 16) % Pow16(k - 1) * 16 + n % 16 == n % Pow16(k)
  {
    var p := Pow16(k - 1);
    var q := (n / 16) / p;
    var r := (n / 16) % p;
    assert n / 16 == q * p + r;
    assert n == (n / 16) * 16 + n % 16;
    assert n == q * (16 * p) + (r * 16 + n % 16) by {
      assert (q * p + r) * 16 == q * (16 * p) + r * 16;
    }
    assert r * 16 + n % 16 < 16 * p by {
      assert r * 16 <= (p - 1) * 16;
    }
    DivModUnique(n, 16 * p, q, r * 16 + n % 16);
  }

  /** `n >> (4 * b)` */
  function ShiftHex(n: nat, b: nat): nat {
    if b == 0 then n else ShiftHex(n / 16, b - 1)
  }

  /** Splitting the digit string of `n` after its first `a` digits. */
  lemma {:induction false} HexFixedSplit(n: nat, a: nat, b: nat)
    ensures HexFixed(n, a + b) == HexFixed(ShiftHex(n, b), a) + HexFixed(n, b)
    decreases b
  {
    if b > 0 {
      HexFixedSplit(n / 16, a, b - 1);
    }
  }

  lemma DivDiv(n: nat, x: nat, y: nat)
    requires x > 0 && y > 0
    ensures n / x / y == n / (x * y)
  {
    var q := n / x / y;
    var r1 := n % x;
    var r2 := (n / x) % y;
    assert n / x == q * y + r2;
    assert n == (n / x) * x + r1;
    assert n == q * (x * y) + (r2 * x + r1) by {
      assert (q * y + r2) * x == q * (x * y) + r2 * x;
    }
    assert r2 * x + r1 < x * y by {
      assert r2 * x <= (y - 1) * x;
    }
    DivModUnique(n, x * y, q, r2 * x + r1);
  }

  /** Hexadecimal digits without sign, prefix or spaces parse to their
      value. */
  lemma ParsePlainHex(s: string)
    requires s != [] && AllHex(s) && NoSpace(s) && s[0] != '+' && s[0] != '-'
    requires |s| >= 2 ==> s[1] != 'x' && s[1] != 'X'
    ensures ParseIntBase16(s) == Some(HexDigitsValue(s))
  {
    assert Strip(s) == s;
    assert SplitSign(s) == (false, s);
  }

  /** The same digits behind "0x". */
  lemma ParsePrefixedHex(s: string)
    requires s != [] && AllHex(s) && NoSpace(s)
    ensures ParseIntBase16("0x" + s) == Some(HexDigitsValue(s))
  {
    var p := "0x" + s;
    assert NoSpace(p);
    assert Strip(p) == p;
    assert SplitSign(p) == (false, p);
    assert p[2..] == s;
  }

  /** `int(f"{n:0kx}", 16)` for any `n`: the low `k` hexadecimal digits. */
  lemma ParseHexFixedLow(n: nat, k: nat)
    requires k > 0
    ensures ParseIntBase16(HexFixed(n, k)) == Some(n % Pow16(k))
  {
    var s := HexFixed(n, k);
    assert NoSpace(s);
    ParsePlainHex(s);
    HexFixedValue(n, k);
  }

  /** `int(f"{n:0kx}", 16)` gives back `n` when it fits in `k` digits. */
  lemma ParseHexFixed(n: nat, k: nat)
    requires k > 0 && n < Pow16(k)
    ensures ParseIntBase16(HexFixed(n, k)) == Some(n)
  {
    ParseHexFixedLow(n, k);
    DivModUnique(n, Pow16(k), 0, n);
  }

  /** `int("0x" + f"{n:0kx}", 16)` gives back `n`: the register strings
      of the configuration tables ("0x0404") parse to their address. */
  lemma ParsePrefixedHexFixed(n: nat, k: nat)
    requires k > 0 && n < Pow16(k)
    ensures ParseIntBase16("0x" + HexFixed(n, k)) == Some(n)
  {
    var s := HexFixed(n, k);
    assert NoSpace(s);
    ParsePrefixedHex(s);
    HexFixedValue(n, k);
    DivModUnique(n, Pow16(k), 0, n);
  }
}
