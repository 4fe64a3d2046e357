/**
 The string primitives the indexer leans on: case folding, byte order, decimal printing and
 parsing, and positional hexadecimal. Strings are sequences of bytes written as characters.
 */
module Text {
  import opened Wrappers

  // ---- case folding and classes (std::tolower, std::isxdigit) ----

  function LowerChar(c: char): char {
    if 'A' <= c <= 'Z' then c - 'A' + 'a' else c
  }

  function Lower(s: string): string {
    seq(|s|, i requires 0 <= i < |s| => LowerChar(s[i]))
  }

  /** Capitals move up by 32 places in ASCII, nothing else moves. */
  lemma LowerExactly(s: string, i: nat)
    requires i < |s|
    ensures |Lower(s)| == |s|
    ensures Lower(s)[i] as int == s[i] as int + if 65 <= s[i] as int <= 90 then 32 else 0
  {
  }

  predicate IsDigit(c: char) {
    '0' <= c <= '9'
  }

  predicate IsHexDigit(c: char) {
    '0' <= c <= '9' || 'a' <= c <= 'f' || 'A' <= c <= 'F'
  }

  predicate AllHex(s: string) {
    forall i :: 0 <= i < |s| ==> IsHexDigit(s[i])
  }

  predicate IsLowerHexDigit(c: char) {
    '0' <= c <= '9' || 'a' <= c <= 'f'
  }

  predicate AllLowerHex(s: string) {
    forall i :: 0 <= i < |s| ==> IsLowerHexDigit(s[i])
  }

  function DigitValue(c: char): (v: nat)
    requires IsHexDigit(c)
    ensures v < 16
    ensures IsDigit(c) ==> v < 10
  {
    if '0' <= c <= '9' then (c - '0') as int
    else if 'a' <= c <= 'f' then (c - 'a') as int + 10
    else (c - 'A') as int + 10
  }

  /** Digits by their ASCII codes. */
  lemma DigitExactly(c: char)
    ensures IsHexDigit(c) <==> 48 <= c as int <= 57 || 65 <= c as int <= 70 || 97 <= c as int <= 102
    ensures IsHexDigit(c) ==>
      DigitValue(c) == c as int - if c as int <= 57 then 48 else if c as int <= 70 then 55 else 87
  {
  }

  // ---- positional notation ----

  function Pow(b: nat, e: nat): (p: nat)
    ensures b > 0 ==> p > 0
  {
    if e == 0 then 1 else b * Pow(b, e - 1)
  }

  /** The number a hexadecimal string denotes; the empty string denotes 0. */
  function HexValue(s: string): nat
    requires AllHex(s)
  {
    if s == "" then 0 else HexValue(s[..|s| - 1]) * 16 + DigitValue(s[|s| - 1])
  }

  function HexDigit(d: nat): (c: char)
    requires d < 16
    ensures IsLowerHexDigit(c) && DigitValue(c) == d
  {
    if d < 10 then '0' + d as char else 'a' + (d - 10) as char
  }

  /** Exactly `width` lower-case hexadecimal digits. */
  function ToHex(n: nat, width: nat): (s: string)
    ensures |s| == width && AllLowerHex(s)
    decreases width, n
  {
    if width == 0 then "" else ToHex(n / 16, width - 1) + [HexDigit(n % 16)]
  }

  lemma {:induction false} HexRoundTrip(n: nat, width: nat)
    requires n < Pow(16, width)
    ensures HexValue(ToHex(n, width)) == n
  {
    if width > 0 {
      HexRoundTrip(n / 16, width - 1);
      assert ToHex(n, width)[..width - 1] == ToHex(n / 16, width - 1);
    }
  }

  lemma {:induction false} HexBound(s: string)
    requires AllHex(s)
    ensures HexValue(s) < Pow(16, |s|)
  {
    if s != "" {
      HexBound(s[..|s| - 1]);
    }
  }

  lemma {:induction false} HexConcat(a: string, b: string)
    requires AllHex(a) && AllHex(b)
    ensures AllHex(a + b) && HexValue(a + b) == HexValue(a) * Pow(16, |b|) + HexValue(b)
  {
    if b == "" {
      assert a + b == a;
    } else {
      var b' := b[..|b| - 1];
      HexConcat(a, b');
      assert (a + b)[..|a + b| - 1] == a + b';
      assert HexValue(a + b) == (HexValue(a) * Pow(16, |b'|) + HexValue(b')) * 16 + DigitValue(b[|b| - 1]);
      assert HexValue(a) * Pow(16, |b'|) * 16 == HexValue(a) * Pow(16, |b|) by {
        assert Pow(16, |b|) == 16 * Pow(16, |b'|);
        MulAssociates(HexValue(a), Pow(16, |b'|), 16);
      }
    }
  }

  lemma MulAssociates(a: nat, b: nat, c: nat)
    ensures a * b * c == a * (c * b)
  {
  }

  lemma {:induction false} LowerHexFixed(s: string)
    requires AllLowerHex(s)
    ensures Lower(s) == s && AllHex(s)
  {
    assert |Lower(s)| == |s|;
    forall i | 0 <= i < |s| ensures Lower(s)[i] == s[i] && IsHexDigit(s[i]) {
      assert IsLowerHexDigit(s[i]);
    }
  }

  predicate AllZeros(s: string) {
    forall i :: 0 <= i < |s| ==> s[i] == '0'
  }

  function Zeros(n: nat): (s: string)
    ensures |s| == n && AllZeros(s) && AllLowerHex(s)
  {
    seq(n, i => '0')
  }

  lemma {:induction false} AllZerosIsZero(s: string)
    requires AllZeros(s)
    ensures AllHex(s) && HexValue(s) == 0
  {
    if s != "" {
      AllZerosIsZero(s[..|s| - 1]);
    }
  }

  /** Leading digits of a number that is small for its width are zeros. */
  lemma {:induction false} ToHexSplit(n: nat, hi: nat, lo: nat)
    requires n < Pow(16, lo)
    ensures ToHex(n, hi + lo) == Zeros(hi) + ToHex(n, lo)
  {
    if lo == 0 {
      assert n == 0;
      ToHexZero(hi);
      assert ToHex(n, hi + lo) == Zeros(hi) + ToHex(n, lo);
    } else {
      ToHexSplit(n / 16, hi, lo - 1);
      assert ToHex(n, hi + lo) == Zeros(hi) + ToHex(n / 16, lo - 1) + [HexDigit(n % 16)];
    }
  }

  lemma {:induction false} ToHexZero(w: nat)
    ensures ToHex(0, w) == Zeros(w)
  {
    if w > 0 {
      ToHexZero(w - 1);
      assert Zeros(w) == Zeros(w - 1) + ['0'];
    }
  }

  // ---- decimal (std::to_string, cpp_int::convert_to<std::string>, std::stoul) ----

  function DecimalDigit(d: nat): (c: char)
    requires d < 10
    ensures IsDigit(c) && DigitValue(c) == d
  {
    '0' + d as char
  }

  predicate AllDigits(s: string) {
    forall i :: 0 <= i < |s| ==> IsDigit(s[i])
  }

  function Decimal(n: nat): (s: string)
    ensures |s| > 0 && AllDigits(s)
  {
    if n < 10 then [DecimalDigit(n)] else Decimal(n / 10) + [DecimalDigit(n % 10)]
  }

  function DecimalValue(s: string): nat
    requires AllDigits(s)
  {
    if s == "" then 0 else DecimalValue(s[..|s| - 1]) * 10 + DigitValue(s[|s| - 1])
  }

  lemma {:induction false} DecimalRoundTrip(n: nat)
    ensures DecimalValue(Decimal(n)) == n
  {
    if n >= 10 {
      DecimalRoundTrip(n / 10);
      assert Decimal(n)[..|Decimal(n)| - 1] == Decimal(n / 10);
    } else {
      assert Decimal(n)[..0] == "";
    }
  }

  lemma DecimalInjective(a: nat, b: nat)
    requires Decimal(a) == Decimal(b)
    ensures a == b
  {
    DecimalRoundTrip(a);
    DecimalRoundTrip(b);
  }

  lemma DecimalZero(n: nat)
    ensures Decimal(n) == "0" <==> n == 0
  {
    DecimalRoundTrip(n);
    DecimalRoundTrip(0);
  }

  /** A number below 10^k prints in at most k digits. */
  lemma {:induction false} DecimalLength(n: nat, k: nat)
    requires k > 0 && n < Pow(10, k)
    ensures |Decimal(n)| <= k
  {
    if n >= 10 {
      assert Pow(10, 1) == 10;
      DecimalLength(n / 10, k - 1);
    }
  }

  /** The longest prefix of decimal digits. */
  function DigitPrefix(s: string): (n: nat)
    ensures n <= |s| && AllDigits(s[..n]) && (n < |s| ==> !IsDigit(s[n]))
  {
    if s == "" || !IsDigit(s[0]) then 0 else
      var n := 1 + DigitPrefix(s[1..]);
      assert forall i :: 0 <= i < n ==> s[..n][i] == (if i == 0 then s[0] else s[1..][..n - 1][i - 1]);
      n
  }

  /** One past the largest unsigned long. */
  const ULONG_LIMIT: nat := 0x1_0000_0000_0000_0000

  predicate IsSpace(c: char) {
    c == ' ' || '\t' <= c <= '\r'
  }

  function SkipSpace(s: string): string {
    if s != "" && IsSpace(s[0]) then SkipSpace(s[1..]) else s
  }

  /** The digits up to the first other character. */
  function Unsigned(digits: string): Option<nat> {
    var n := DigitPrefix(digits);
    if n == 0 || DecimalValue(digits[..n]) >= ULONG_LIMIT then None else Some(DecimalValue(digits[..n]))
  }

  /** An optional sign and the digits; a minus sign negates the unsigned number. */
  function Signed(t: string): Option<nat> {
    if t != "" && t[0] == '-' then
      var n := Unsigned(t[1..]);
      if n.None? then None else Some((ULONG_LIMIT - n.value) % ULONG_LIMIT)
    else Unsigned(if t != "" && t[0] == '+' then t[1..] else t)
  }

  /**
   std::stoul, behind white space. None stands for its exceptions, thrown where there are no digits or the
   number does not fit.
   */
  function Stoul(s: string): Option<nat> {
    Signed(SkipSpace(s))
  }

  lemma StoulDecimal(n: nat)
    requires n < ULONG_LIMIT
    ensures Stoul(Decimal(n)) == Some(n)
  {
    assert IsDigit(Decimal(n)[0]);
    var s := Decimal(n);
    assert DigitPrefix(s) == |s| && s[..|s|] == s;
    DecimalRoundTrip(n);
  }

  predicate IsBlank(c: char) {
    c as int == 32 || 9 <= c as int <= 13
  }

  predicate AllBlank(s: string) {
    forall i :: 0 <= i < |s| ==> IsBlank(s[i])
  }

  lemma {:induction false} SpaceSkipped(pre: string, t: string)
    requires AllBlank(pre) && (t == "" || !IsBlank(t[0]))
    ensures SkipSpace(pre + t) == t
  {
    if pre == "" {
      assert pre + t == t;
    } else {
      assert IsBlank(pre[0]) && (pre + t)[1..] == pre[1..] + t;
      SpaceSkipped(pre[1..], t);
    }
  }

  lemma {:induction false} DigitsTaken(ds: string, rest: string)
    requires AllDigits(ds) && (rest == "" || !IsDigit(rest[0]))
    ensures DigitPrefix(ds + rest) == |ds|
  {
    if ds == "" {
      assert ds + rest == rest;
    } else {
      assert (ds + rest)[1..] == ds[1..] + rest;
      DigitsTaken(ds[1..], rest);
    }
  }

  /** At least one digit, and then anything that does not go on with one. */
  predicate IsNumber(ds: string, rest: string) {
    ds != "" && AllDigits(ds) && (rest == "" || !IsDigit(rest[0]))
  }

  lemma UnsignedReads(ds: string, rest: string)
    requires IsNumber(ds, rest)
    ensures Unsigned(ds + rest)
         == if DecimalValue(ds) >= 0x1_0000_0000_0000_0000 then None else Some(DecimalValue(ds))
  {
    DigitsTaken(ds, rest);
    assert (ds + rest)[..|ds|] == ds;
  }

  predicate IsSign(sign: string) {
    sign == "" || sign == "+" || sign == "-"
  }

  /** What `n` behind a sign is read as: itself if it is below 2^64, or its negative modulo 2^64. */
  function NumberRead(sign: string, n: nat): Option<nat> {
    if n >= 0x1_0000_0000_0000_0000 then None
    else if sign == "-" && n > 0 then Some(0x1_0000_0000_0000_0000 - n)
    else Some(n)
  }

  lemma SignRead(sign: string, digits: string, n: nat)
    requires IsSign(sign) && digits != "" && IsDigit(digits[0])
    requires Unsigned(digits) == if n >= ULONG_LIMIT then None else Some(n)
    ensures !IsBlank((sign + digits)[0]) && Signed(sign + digits) == NumberRead(sign, n)
  {
    var t := sign + digits;
    if sign == "" {
      assert t == digits;
    } else {
      assert t[0] == sign[0] && t[1..] == digits;
    }
  }

  lemma BlankIgnored(pre: string, t: string, r: Option<nat>)
    requires AllBlank(pre) && t != "" && !IsBlank(t[0]) && Signed(t) == r
    ensures Stoul(pre + t) == r
  {
    SpaceSkipped(pre, t);
  }

  /** A number is read up to the first other character; white space in front is skipped. */
  lemma StoulReads(pre: string, sign: string, ds: string, rest: string)
    requires AllBlank(pre) && IsNumber(ds, rest) && IsSign(sign)
    ensures Stoul(pre + (sign + (ds + rest))) == NumberRead(sign, DecimalValue(ds))
  {
    var n := DecimalValue(ds);
    UnsignedReads(ds, rest);
    SignRead(sign, ds + rest, n);
    BlankIgnored(pre, sign + (ds + rest), NumberRead(sign, n));
  }

  lemma {:induction false} SpaceInFront(s: string) returns (pre: string)
    ensures AllBlank(pre) && s == pre + SkipSpace(s)
  {
    if s != "" && IsSpace(s[0]) {
      var more := SpaceInFront(s[1..]);
      pre := [s[0]] + more;
      assert s == [s[0]] + s[1..];
    } else {
      pre := "";
    }
  }

  /** Nothing else is read. */
  lemma OnlyNumbers(s: string) returns (pre: string, sign: string, ds: string, rest: string)
    requires Stoul(s).Some?
    ensures s == pre + (sign + (ds + rest))
    ensures AllBlank(pre) && IsNumber(ds, rest) && IsSign(sign)
  {
    var t := SkipSpace(s);
    pre := SpaceInFront(s);
    sign, ds, rest := SignInFront(t);
  }

  lemma SignInFront(t: string) returns (sign: string, ds: string, rest: string)
    requires Signed(t).Some?
    ensures t == sign + (ds + rest) && IsNumber(ds, rest) && IsSign(sign)
  {
    if t != "" && (t[0] == '-' || t[0] == '+') {
      ds, rest := NumberInFront(t[1..]);
      sign := [t[0]];
      assert t == [t[0]] + t[1..];
    } else {
      ds, rest := NumberInFront(t);
      sign := "";
      assert "" + t == t;
    }
  }

  lemma NumberInFront(digits: string) returns (ds: string, rest: string)
    requires Unsigned(digits).Some?
    ensures digits == ds + rest && IsNumber(ds, rest)
  {
    var n := DigitPrefix(digits);
    ds, rest := digits[..n], digits[n..];
  }

  lemma {:induction false} DigitPrefixStops(s: string, tail: string)
    ensures DigitPrefix(s + ":" + tail) == DigitPrefix(s)
  {
    var t := s + ":" + tail;
    if s != "" && IsDigit(s[0]) {
      assert t[0] == s[0] && t[1..] == s[1..] + ":" + tail;
      DigitPrefixStops(s[1..], tail);
    }
  }

  lemma {:induction false} SkipSpaceStops(s: string, tail: string)
    ensures SkipSpace(s + ":" + tail) == SkipSpace(s) + ":" + tail
  {
    var t := s + ":" + tail;
    if s != "" && IsSpace(s[0]) {
      assert t[0] == s[0] && t[1..] == s[1..] + ":" + tail;
      SkipSpaceStops(s[1..], tail);
    }
  }

  lemma UnsignedStops(digits: string, tail: string)
    ensures Unsigned(digits + ":" + tail) == Unsigned(digits)
  {
    var more := digits + ":" + tail;
    DigitPrefixStops(digits, tail);
    assert more[..DigitPrefix(digits)] == digits[..DigitPrefix(digits)];
  }

  /** A number is read up to a colon at most. */
  lemma StoulStops(s: string, tail: string)
    ensures Stoul(s + ":" + tail) == Stoul(s)
  {
    SkipSpaceStops(s, tail);
    var t := SkipSpace(s);
    UnsignedStops(t, tail);
    if t != "" {
      UnsignedStops(t[1..], tail);
      assert (t + ":" + tail)[1..] == t[1..] + ":" + tail;
    }
  }

  // ---- searching ----

  predicate StartsWith(s: string, p: string) {
    p <= s
  }

  /** std::string::find of one character. */
  function Find(s: string, c: char): (i: Option<nat>)
    ensures i.Some? ==> i.value < |s| && s[i.value] == c && c !in s[..i.value]
    ensures i.None? ==> c !in s
  {
    if s == "" then None
    else if s[0] == c then Some(0)
    else
      match Find(s[1..], c)
      case None => None
      case Some(i) => assert s[..i + 1] == [s[0]] + s[1..][..i]; Some(i + 1)
  }

  // ---- the store's byte order ----

  predicate Before(a: string, b: string)
    decreases |a|
  {
    b != "" && (a == "" || a[0] < b[0] || (a[0] == b[0] && Before(a[1..], b[1..])))
  }

  /** `a` comes before `b` exactly if it is a proper prefix, or has the smaller character where they first differ. */
  lemma {:induction false} BeforeExactly(a: string, b: string)
    ensures Before(a, b) <==>
      exists n :: 0 <= n <= |a| && n < |b| && a[..n] == b[..n] && (n == |a| || a[n] as int < b[n] as int)
    decreases |a|
  {
    if a != "" && b != "" && a[0] == b[0] {
      var x, y := a[1..], b[1..];
      BeforeExactly(x, y);
      if m :| 0 <= m <= |x| && m < |y| && x[..m] == y[..m] && (m == |x| || x[m] as int < y[m] as int) {
        assert a[..m + 1] == [a[0]] + x[..m] && b[..m + 1] == [b[0]] + y[..m];
      }
      if n :| 0 <= n <= |a| && n < |b| && a[..n] == b[..n] && (n == |a| || a[n] as int < b[n] as int) {
        assert n > 0 && x[..n - 1] == a[..n][1..] && y[..n - 1] == b[..n][1..];
      }
    } else if b != "" {
      assert a[..0] == b[..0];
      forall n | 0 < n <= |a| && n < |b| ensures a[..n] != b[..n] {
        assert a[..n][0] == a[0] && b[..n][0] == b[0];
      }
    }
  }

  lemma {:induction false} BeforeIrreflexive(a: string)
    ensures !Before(a, a)
  {
    if a != "" {
      BeforeIrreflexive(a[1..]);
    }
  }

  lemma {:induction false} BeforeTotal(a: string, b: string)
    ensures a == b || Before(a, b) || Before(b, a)
  {
    if a != "" && b != "" && a[0] == b[0] {
      BeforeTotal(a[1..], b[1..]);
      if a[1..] == b[1..] {
        assert a == [a[0]] + a[1..] && b == [b[0]] + b[1..];
      }
    }
  }

  lemma {:induction false} BeforeTransitive(a: string, b: string, c: string)
    requires Before(a, b) && Before(b, c)
    ensures Before(a, c)
  {
    if a != "" && a[0] == b[0] && b[0] == c[0] {
      BeforeTransitive(a[1..], b[1..], c[1..]);
    }
  }

  /** No string with prefix `p` sorts before `p`. */
  lemma {:induction false} PrefixNotBefore(p: string, s: string)
    requires StartsWith(s, p)
    ensures !Before(s, p)
  {
    if p != "" {
      assert StartsWith(s[1..], p[1..]);
      PrefixNotBefore(p[1..], s[1..]);
    }
  }

  /** Once the scan is at or past `p` and has left the block of strings with that prefix, it is past all of them. */
  lemma {:induction false} PrefixBlockEnds(p: string, a: string, b: string)
    requires !Before(a, p) && !StartsWith(a, p) && Before(a, b)
    ensures !StartsWith(b, p)
  {
    if StartsWith(b, p) {
      if p != "" {
        if a != "" && a[0] == p[0] {
          assert StartsWith(b[1..], p[1..]);
          PrefixBlockEnds(p[1..], a[1..], b[1..]);
        }
      }
    }
  }
}
