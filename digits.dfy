/** The number fields of symbol IDs: upper-case hexadecimal for unsigned values and signed
    decimal for the frame number, written most significant digit first and read back by
    cursor loops that stop at the first character that is not a digit. Both symbol readers
    (the agent's and the value-add server's) have identical `read_hex` and `read_int`. */
module Digits {
  import opened Base

  // ---- hexadecimal ----

  predicate IsHexDigit(c: char) { '0' <= c <= '9' || 'A' <= c <= 'F' }

  predicate AllHex(s: string) { forall k :: 0 <= k < |s| ==> IsHexDigit(s[k]) }

  function HexValue(c: char): (d: nat)
    requires IsHexDigit(c)
    ensures d < 16
  {
    if c <= '9' then c as int - '0' as int else c as int - 'A' as int + 10
  }

  /** The digit `tmp_app_hex` writes for `d`: '0'-'9', then 'A'-'F'. */
  function HexDigit(d: nat): (c: char)
    requires d < 16
    ensures IsHexDigit(c) && HexValue(c) == d
  {
    if d < 10 then ('0' as int + d) as char else ('A' as int + d - 10) as char
  }

  /** The hexadecimal text of `n`: "0" for zero, no leading zeros otherwise. */
  function Hex(n: nat): (s: string)
    ensures |s| >= 1 && AllHex(s)
    ensures n > 0 ==> s[0] != '0'
    decreases n
  {
    if n < 16 then [HexDigit(n)] else Hex(n / 16) + [HexDigit(n % 16)]
  }

  /** The number a run of hex digits denotes, read left to right. */
  function HexNumber(s: string): (n: nat)
    requires AllHex(s)
  {
    if s == [] then 0 else HexNumber(s[..|s| - 1]) * 16 + HexValue(s[|s| - 1])
  }

  lemma {:induction false} HexNumberOfHex(n: nat)
    ensures HexNumber(Hex(n)) == n
    decreases n
  {
    if n >= 16 {
      var s := Hex(n);
      assert s[..|s| - 1] == Hex(n / 16);
      HexNumberOfHex(n / 16);
    }
  }

  function Pow16(k: nat): (p: nat)
    ensures p >= 1
  {
    if k == 0 then 1 else 16 * Pow16(k - 1)
  }

  /** A value below 16^k takes at most k digits; in particular a 64-bit value at most 16. */
  lemma {:induction false} HexLength(n: nat, k: nat)
    requires k >= 1 && n < Pow16(k)
    ensures |Hex(n)| <= k
    decreases k
  {
    if n >= 16 {
      assert k >= 2;
      HexLength(n / 16, k - 1);
    }
  }

  lemma Pow16Is64()
    ensures Pow16(16) == TWO_64
  {
    assert Pow16(4) == 0x1_0000;
    assert Pow16(8) == 0x1_0000_0000 by {
      assert Pow16(5) == 0x10_0000;
      assert Pow16(6) == 0x100_0000;
      assert Pow16(7) == 0x1000_0000;
    }
    assert Pow16(12) == 0x1_0000_0000_0000 by {
      assert Pow16(9) == 0x10_0000_0000;
      assert Pow16(10) == 0x100_0000_0000;
      assert Pow16(11) == 0x1000_0000_0000;
    }
    assert Pow16(13) == 0x10_0000_0000_0000;
    assert Pow16(14) == 0x100_0000_0000_0000;
    assert Pow16(15) == 0x1000_0000_0000_0000;
  }

  /** The length of the leading run of hex digits. */
  function HexRun(s: string): (k: nat)
    ensures k <= |s| && AllHex(s[..k])
    ensures k < |s| ==> !IsHexDigit(s[k])
  {
    if s == [] || !IsHexDigit(s[0]) then 0
    else
      var k := 1 + HexRun(s[1..]);
      assert s[..k] == [s[0]] + s[1..][..k - 1];
      k
  }

  /** read_hex: the 64-bit value of the leading hex digits (shifting wraps modulo 2^64) and
      how many characters were consumed. */
  function ReadHex(s: string): (r: (nat, nat))
    ensures IsU64(r.0) && r.1 <= |s|
  {
    (U64(HexNumber(s[..HexRun(s)])), HexRun(s))
  }

  lemma {:induction false} HexRunOfHex(d: string, rest: string)
    requires AllHex(d) && (rest == [] || !IsHexDigit(rest[0]))
    ensures HexRun(d + rest) == |d|
    decreases |d|
  {
    if d != [] {
      assert (d + rest)[1..] == d[1..] + rest;
      HexRunOfHex(d[1..], rest);
    } else {
      assert d + rest == rest;
    }
  }

  /** Reading back what `tmp_app_hex` wrote gives the value and stops right after it. */
  lemma ReadHexOfHex(n: nat, rest: string)
    requires IsU64(n) && (rest == [] || !IsHexDigit(rest[0]))
    ensures ReadHex(Hex(n) + rest) == (n, |Hex(n)|)
  {
    HexRunOfHex(Hex(n), rest);
    assert (Hex(n) + rest)[..|Hex(n)|] == Hex(n);
    HexNumberOfHex(n);
  }

  /** One step of the shift-and-or: `(res << 4) | d` on a uint64_t. */
  lemma ShiftStep(x: int, d: nat)
    requires d < 16
    ensures U64(U64(x) * 16 + d) == U64(x * 16 + d)
  {
    var q := x / TWO_64;
    assert x == TWO_64 * q + U64(x);
    assert x * 16 + d == (U64(x) * 16 + d) + TWO_64 * (q * 16);
    ModShift(U64(x) * 16 + d, q * 16, TWO_64);
  }

  lemma ModShift(a: int, k: int, m: nat)
    requires m > 0
    ensures (a + m * k) % m == a % m
  {
    var r := a % m;
    var q := a / m;
    assert a == m * q + r;
    assert m * (q + k) == m * q + m * k;
    ModUnique(a + m * k, m, q + k, r);
  }

  /** Euclidean division is unique: a remainder in [0, m) determines `x % m`. */
  lemma ModUnique(x: int, m: nat, d: int, r: int)
    requires m > 0 && 0 <= r < m && x == m * d + r
    ensures x % m == r
  {
    var z := d - x / m;
    assert m * z == x % m - r by {
      assert x == m * (x / m) + x % m;
      assert m * z == m * d - m * (x / m);
    }
    if z >= 1 {
      MulMono(m, z);
    } else if z <= -1 {
      MulMono(m, -z);
    }
  }

  lemma MulMono(m: nat, z: int)
    requires z >= 1
    ensures m * z >= m
  {
    assert m * z == m + m * (z - 1);
  }

  /** read_hex as the agent writes it: a cursor `p` advanced over the digits. */
  method ReadHexAt(s: string, p: nat) returns (v: nat, q: nat)
    requires p <= |s|
    ensures p <= q <= |s| && (v, q - p) == ReadHex(s[p..])
  {
    v := 0;
    q := p;
    ghost var k := HexRun(s[p..]);
    while q < |s| && IsHexDigit(s[q])
      invariant p <= q <= p + k
      invariant s[p..q] == s[p..][..q - p]
      invariant v == U64(HexNumber(s[p..q]))
      decreases |s| - q
    {
      assert s[p..][q - p] == s[q];
      assert s[p..q + 1][..q - p] == s[p..q];
      ShiftStep(HexNumber(s[p..q]), HexValue(s[q]));
      v := U64(v * 16 + HexValue(s[q]));
      q := q + 1;
    }
    assert q - p == k;
  }

  // ---- decimal ----

  predicate IsDecDigit(c: char) { '0' <= c <= '9' }

  predicate AllDec(s: string) { forall k :: 0 <= k < |s| ==> IsDecDigit(s[k]) }

  /** The digits the `do { buf[i++] = '0' + n % 10; n = n / 10; } while (n != 0)` loop emits,
      most significant first, with C's truncating `%` and `/` (so a negative `n` yields
      characters below '0'). */
  function CDigits(n: int): (s: string)
    ensures |s| >= 1
    ensures n >= 0 ==> AllDec(s)
    decreases if n < 0 then -n else n
  {
    var c := ('0' as int + CRem(n, 10)) as char;
    if CDiv(n, 10) == 0 then [c] else CDigits(CDiv(n, 10)) + [c]
  }

  /** printf's `%d`: a minus sign and the digits of the magnitude. */
  function SignedDec(n: int): (s: string)
  {
    if n < 0 then "-" + CDigits(-n) else CDigits(n)
  }

  /** tmp_app_int: `n = -n` on a 32-bit `int` before the digit loop, so INT_MIN stays negative. */
  function TmpIntText(n: int): (s: string)
    requires IsI32(n)
    ensures n != -0x8000_0000 ==> s == SignedDec(n)
  {
    if n < 0 then "-" + CDigits(I32(-n)) else CDigits(n)
  }

  function DecNumber(s: string): (n: nat)
    requires AllDec(s)
  {
    if s == [] then 0 else DecNumber(s[..|s| - 1]) * 10 + (s[|s| - 1] as int - '0' as int)
  }

  lemma {:induction false} DecNumberOfDigits(n: nat)
    ensures DecNumber(CDigits(n)) == n
    decreases n
  {
    if n >= 10 {
      var s := CDigits(n);
      assert s[..|s| - 1] == CDigits(n / 10);
      DecNumberOfDigits(n / 10);
    }
  }

  function DecRun(s: string): (k: nat)
    ensures k <= |s| && AllDec(s[..k])
    ensures k < |s| ==> !IsDecDigit(s[k])
  {
    if s == [] || !IsDecDigit(s[0]) then 0
    else
      var k := 1 + DecRun(s[1..]);
      assert s[..k] == [s[0]] + s[1..][..k - 1];
      k
  }

  /** read_int: an optional '-', then digits accumulated in a 32-bit `int` (wrapping), negated
      at the end; returns the value and the characters consumed. */
  function ReadInt(s: string): (r: (int, nat))
    ensures IsI32(r.0) && r.1 <= |s|
  {
    var neg := s != [] && s[0] == '-';
    var t := if neg then s[1..] else s;
    var m: int := DecNumber(t[..DecRun(t)]);
    (if neg then I32(-m) else I32(m), DecRun(t) + (if neg then 1 else 0))
  }

  lemma {:induction false} DecRunOfDigits(d: string, rest: string)
    requires AllDec(d) && (rest == [] || !IsDecDigit(rest[0]))
    ensures DecRun(d + rest) == |d|
    decreases |d|
  {
    if d != [] {
      assert (d + rest)[1..] == d[1..] + rest;
      DecRunOfDigits(d[1..], rest);
    } else {
      assert d + rest == rest;
    }
  }

  /** Every `int` printed with `%d` reads back as itself, INT_MIN included (its magnitude wraps
      to INT_MIN and the negation wraps back). */
  lemma ReadIntOfDec(n: int, rest: string)
    requires IsI32(n) && (rest == [] || !IsDecDigit(rest[0]))
    ensures ReadInt(SignedDec(n) + rest) == (n, |SignedDec(n)|)
  {
    var m := if n < 0 then -n else n;
    var d := CDigits(m);
    DecRunOfDigits(d, rest);
    DecNumberOfDigits(m);
    if n < 0 {
      ReadNegative(d, rest);
    } else {
      ReadNonNegative(d, rest);
    }
  }

  lemma ReadNegative(d: string, rest: string)
    requires AllDec(d) && DecRun(d + rest) == |d|
    ensures ReadInt(("-" + d) + rest) == (I32(-(DecNumber(d) as int)), |d| + 1)
  {
    var s := ("-" + d) + rest;
    assert s[0] == '-' && s[1..] == d + rest;
    assert (d + rest)[..|d|] == d;
  }

  lemma ReadNonNegative(d: string, rest: string)
    requires AllDec(d) && d != [] && DecRun(d + rest) == |d|
    ensures ReadInt(d + rest) == (I32(DecNumber(d)), |d|)
  {
    assert IsDecDigit(d[0]);
    assert (d + rest)[..|d|] == d;
  }

  /** tmp_app_int's text reads back as the value for every `int` but INT_MIN. */
  lemma ReadIntOfTmpInt(n: int, rest: string)
    requires IsI32(n) && n != -0x8000_0000 && (rest == [] || !IsDecDigit(rest[0]))
    ensures ReadInt(TmpIntText(n) + rest) == (n, |TmpIntText(n)|)
  {
    ReadIntOfDec(n, rest);
  }

  /** For INT_MIN tmp_app_int emits "-" followed by characters below '0' (the first is '.'),
      which read_int takes as zero after consuming only the sign. */
  lemma TmpIntMinLost()
    ensures TmpIntText(-0x8000_0000)[..2] == "-."
    ensures ReadInt(TmpIntText(-0x8000_0000)) == (0, 1)
  {
    var s := CDigits(-0x8000_0000);
    assert CDigits(-2) == ['.'];
    assert CDigits(-21) == ['.', '/'];
    assert CDigits(-214) == ['.', '/', ','];
    assert CDigits(-2147) == CDigits(-214) + [')'];
    assert CDigits(-21474) == CDigits(-2147) + [','];
    assert CDigits(-214748) == CDigits(-21474) + ['('];
    assert CDigits(-2147483) == CDigits(-214748) + ['-'];
    assert CDigits(-21474836) == CDigits(-2147483) + ['*'];
    assert CDigits(-214748364) == CDigits(-21474836) + [','];
    assert s == CDigits(-214748364) + ['('];
    assert s[0] == '.';
    var t := TmpIntText(-0x8000_0000);
    assert t[1..] == s;
    assert DecRun(t[1..]) == 0;
  }

  /** read_int as written: a cursor advanced over an optional sign and the digits. */
  method ReadIntAt(s: string, p: nat) returns (v: int, q: nat)
    requires p <= |s|
    ensures p <= q <= |s| && (v, q - p) == ReadInt(s[p..])
  {
    var neg := false;
    var d0 := p;
    if p < |s| && s[p] == '-' {
      neg := true;
      d0 := p + 1;
    }
    assert s[d0..] == (if neg then s[p..][1..] else s[p..]);
    var res;
    res, q := ReadDigitsAt(s, d0);
    if neg {
      NegStep(DecNumber(s[d0..q]));
      v := I32(-res);
    } else {
      v := res;
    }
  }

  /** The digit loop of read_int. */
  method ReadDigitsAt(s: string, d0: nat) returns (res: int, q: nat)
    requires d0 <= |s|
    ensures d0 <= q <= |s| && q - d0 == DecRun(s[d0..])
    ensures s[d0..q] == s[d0..][..q - d0]
    ensures res == I32(DecNumber(s[d0..q]))
  {
    ghost var t := s[d0..];
    ghost var k := DecRun(t);
    res := 0;
    q := d0;
    while q < |s| && IsDecDigit(s[q])
      invariant d0 <= q <= d0 + k
      invariant s[d0..q] == t[..q - d0]
      invariant res == I32(DecNumber(s[d0..q]))
      decreases |s| - q
    {
      assert t[q - d0] == s[q];
      assert s[d0..q + 1][..q - d0] == s[d0..q];
      DecStep(DecNumber(s[d0..q]), s[q] as int - '0' as int);
      res := I32(res * 10 + (s[q] as int - '0' as int));
      q := q + 1;
    }
    assert q - d0 == k;
  }

  /** `res * 10 + d` on a wrapping `int`. */
  lemma DecStep(x: int, d: int)
    ensures I32(I32(x) * 10 + d) == I32(x * 10 + d)
  {
    var q := x / TWO_32;
    assert x % TWO_32 == x - TWO_32 * q;
    var r := I32(x) - x % TWO_32;
    assert r == 0 || r == -(TWO_32 as int);
    assert x * 10 + d == (I32(x) * 10 + d) + TWO_32 * (q * 10 - r / TWO_32 * 10);
    ModShift(I32(x) * 10 + d, q * 10 - r / TWO_32 * 10, TWO_32);
  }

  lemma NegStep(x: int)
    ensures I32(-I32(x)) == I32(-x)
  {
    var q := x / TWO_32;
    assert x % TWO_32 == x - TWO_32 * q;
    var r := I32(x) - x % TWO_32;
    assert r == 0 || r == -(TWO_32 as int);
    assert -x == -I32(x) + TWO_32 * (r / TWO_32 - q);
    ModShift(-I32(x), r / TWO_32 - q, TWO_32);
  }

  // ---- fields separated by '.' ----

  /** `if (*p == '.') p++;` after each field. */
  function SkipDot(t: string): (r: string)
    ensures |r| <= |t|
  {
    if t != [] && t[0] == '.' then t[1..] else t
  }

  /** A hex field and the text after it and its optional '.'. */
  function HexField(s: string): (r: (nat, string))
    ensures IsU64(r.0) && |r.1| <= |s|
  {
    (ReadHex(s).0, SkipDot(s[ReadHex(s).1..]))
  }

  /** A decimal field and the text after it and its optional '.'. */
  function IntField(s: string): (r: (int, string))
    ensures IsI32(r.0) && |r.1| <= |s|
  {
    (ReadInt(s).0, SkipDot(s[ReadInt(s).1..]))
  }

  lemma HexFieldOf(n: nat, rest: string)
    requires IsU64(n)
    ensures HexField(Hex(n) + "." + rest) == (n, rest)
  {
    ReadHexOfHex(n, "." + rest);
    assert Hex(n) + "." + rest == Hex(n) + ("." + rest);
    assert (Hex(n) + ("." + rest))[|Hex(n)|..] == "." + rest;
  }

  lemma IntFieldOf(n: int, rest: string)
    requires IsI32(n)
    ensures IntField(SignedDec(n) + "." + rest) == (n, rest)
  {
    ReadIntOfDec(n, "." + rest);
    assert SignedDec(n) + "." + rest == SignedDec(n) + ("." + rest);
    assert (SignedDec(n) + ("." + rest))[|SignedDec(n)|..] == "." + rest;
  }

  /** A hex field read with a cursor. */
  method HexFieldAt(s: string, p: nat) returns (v: nat, q: nat)
    requires p <= |s|
    ensures p <= q <= |s| && (v, s[q..]) == HexField(s[p..])
  {
    var k;
    v, k := ReadHexAt(s, p);
    assert s[p..][k - p..] == s[k..];
    q := k;
    if q < |s| && s[q] == '.' {
      q := q + 1;
    }
  }

  /** A decimal field read with a cursor. */
  method IntFieldAt(s: string, p: nat) returns (v: int, q: nat)
    requires p <= |s|
    ensures p <= q <= |s| && (v, s[q..]) == IntField(s[p..])
  {
    var k;
    v, k := ReadIntAt(s, p);
    assert s[p..][k - p..] == s[k..];
    q := k;
    if q < |s| && s[q] == '.' {
      q := q + 1;
    }
  }
}
