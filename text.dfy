/** The text conversions the server takes from libre: lower-case numerals
    (`%u` in decimal, `%llx` in hexadecimal), the hex dump of a byte string
    (`%w`), and the lenient hexadecimal readers `ch_hex`, `str_hex` and
    `pl_x64`.  Their code is not part of this model; these definitions
    reconstruct the behaviour the server depends on. */
module Text {
  import opened Net

  predicate IsHex(c: char)
  {
    '0' <= c <= '9' || 'a' <= c <= 'f' || 'A' <= c <= 'F'
  }

  /** `ch_hex`: the value of a hexadecimal digit of either case, and 0 for
      any other character. */
  function HexVal(c: char): (v: nat)
    ensures v < 16
    ensures !IsHex(c) ==> v == 0
  {
    if '0' <= c <= '9' then c as int - '0' as int
    else if 'a' <= c <= 'f' then c as int - 'a' as int + 10
    else if 'A' <= c <= 'F' then c as int - 'A' as int + 10
    else 0
  }

  /** The lower-case digit for `d`; reading it back gives `d`. */
  function Digit(d: nat): (c: char)
    requires d < 16
    ensures IsHex(c) && HexVal(c) == d
    ensures c != ' ' && c != '\n'
  {
    if d < 10 then ('0' as int + d) as char else ('a' as int + d - 10) as char
  }

  /** The numeral of `n` in base `b` without leading zeros ("0" for zero),
      as `%u` (base 10) and `%llx` (base 16) print it. */
  function Numeral(n: nat, b: nat): seq<char>
    requires 2 <= b <= 16
    decreases n
  {
    if n < b then [Digit(n)] else Numeral(n / b, b) + [Digit(n % b)]
  }

  /** The value of a digit string in base `b`, most significant first. */
  function Value(s: seq<char>, b: nat): nat
  {
    if |s| == 0 then 0 else Value(s[..|s| - 1], b) * b + HexVal(s[|s| - 1])
  }

  /** Reading a numeral back gives the number, the numeral is never empty,
      and it holds only digits (no blank and no line break). */
  lemma NumeralRoundTrip(n: nat, b: nat)
    requires 2 <= b <= 16
    ensures |Numeral(n, b)| >= 1
    ensures Value(Numeral(n, b), b) == n
    ensures forall k :: 0 <= k < |Numeral(n, b)| ==> IsHex(Numeral(n, b)[k]) && Numeral(n, b)[k] != '\n'
  {
    NumeralValue(n, b);
    NumeralDigits(n, b);
  }

  lemma {:induction false} NumeralValue(n: nat, b: nat)
    requires 2 <= b <= 16
    ensures Value(Numeral(n, b), b) == n
    decreases n
  {
    if n >= b {
      var q, r := n / b, n % b;
      DivSmaller(n, b);
      NumeralValue(q, b);
      NumeralSnoc(n, b, q, r);
      ValueSnoc(Numeral(q, b), Digit(r), b);
      DivMod(n, b);
    }
  }

  /** A numeral of two or more digits is the numeral of the quotient
      followed by the digit of the remainder. */
  lemma NumeralSnoc(n: nat, b: nat, q: nat, r: nat)
    requires 2 <= b <= 16 && n >= b && q == n / b && r == n % b
    ensures r < b && Numeral(n, b) == Numeral(q, b) + [Digit(r)]
  {
  }

  /** The value of a digit string grows by one place per digit appended. */
  lemma ValueSnoc(t: seq<char>, c: char, b: nat)
    ensures Value(t + [c], b) == Value(t, b) * b + HexVal(c)
  {
    assert (t + [c])[..|t|] == t;
  }

  lemma {:induction false} NumeralDigits(n: nat, b: nat)
    requires 2 <= b <= 16
    ensures |Numeral(n, b)| >= 1
    ensures forall k :: 0 <= k < |Numeral(n, b)| ==> IsHex(Numeral(n, b)[k]) && Numeral(n, b)[k] != '\n'
    decreases n
  {
    if n >= b {
      var q, r := n / b, n % b;
      DivSmaller(n, b);
      NumeralDigits(q, b);
      NumeralSnoc(n, b, q, r);
      var s, t := Numeral(n, b), Numeral(q, b);
      forall k | 0 <= k < |s|
        ensures IsHex(s[k]) && s[k] != '\n'
      {
        if k < |t| {
          assert s[k] == t[k];
        } else {
          assert s[k] == Digit(r);
        }
      }
    }
  }

  /** A number below `b^k` has a numeral of at most `k` digits. */
  lemma {:induction false} NumeralLength(n: nat, b: nat, k: nat, bound: nat)
    requires 2 <= b <= 16 && k >= 1
    requires bound == Power(b, k) && n < bound
    ensures |Numeral(n, b)| <= k
    decreases k
  {
    if n >= b {
      if k == 1 {
        assert false;
      }
      assert n / b < Power(b, k - 1) by {
        assert Power(b, k) == b * Power(b, k - 1);
        DivBelow(n, b, Power(b, k - 1));
      }
      NumeralLength(n / b, b, k - 1, Power(b, k - 1));
    }
  }

  lemma DivSmaller(n: nat, b: nat)
    requires 2 <= b <= n
    ensures n / b < n
  {
    var q := n / b;
    DivMod(n, b);
    MulAtLeastTwice(q, b);
  }

  lemma MulAtLeastTwice(q: nat, b: nat)
    requires 2 <= b
    ensures q * b >= 2 * q
  {
    assert q * b == 2 * q + q * (b - 2);
  }

  lemma DivMod(n: nat, b: nat)
    requires b >= 1
    ensures (n / b) * b + n % b == n
  {
  }

  lemma DivBelow(n: nat, b: nat, m: nat)
    requires b >= 1 && n < b * m
    ensures n / b < m
  {
  }

  function Power(b: nat, k: nat): nat
  {
    if k == 0 then 1 else b * Power(b, k - 1)
  }

  /** `%llx` of a 64-bit value: between 1 and 16 lower-case digits. */
  function Hex64(x: u64): (s: seq<char>)
    ensures 1 <= |s| <= 16
  {
    assert Power(16, 16) == 0x1_0000_0000_0000_0000 by {
      assert Power(16, 4) == 0x1_0000;
      assert Power(16, 8) == 0x1_0000 * 0x1_0000 by { PowerAdd(16, 4, 4); }
      assert Power(16, 16) == Power(16, 8) * Power(16, 8) by { PowerAdd(16, 8, 8); }
    }
    NumeralLength(x, 16, 16, Power(16, 16));
    NumeralRoundTrip(x, 16);
    Numeral(x, 16)
  }

  lemma {:induction false} PowerAdd(b: nat, i: nat, j: nat)
    ensures Power(b, i + j) == Power(b, i) * Power(b, j)
    decreases i
  {
    if i > 0 {
      PowerAdd(b, i - 1, j);
      var x, y := Power(b, i - 1), Power(b, j);
      assert Power(b, i + j) == b * Power(b, i - 1 + j);
      MulAssoc(b, x, y);
    }
  }

  lemma MulAssoc(a: nat, c: nat, d: nat)
    ensures a * (c * d) == (a * c) * d
  {
  }

  predicate AllHex(s: seq<char>)
  {
    forall k :: 0 <= k < |s| ==> IsHex(s[k])
  }

  /** `pl_x64`: the hexadecimal value of the whole string modulo 2^64 (its
      accumulator is a `uint64_t`), or 0 as soon as one character is not a
      hexadecimal digit. */
  function ParseX64(s: seq<char>): (x: u64)
    ensures !AllHex(s) ==> x == 0
  {
    if AllHex(s) then Value(s, 16) % 0x1_0000_0000_0000_0000 else 0
  }

  /** `pl_x64` reads back what `%llx` printed. */
  lemma Hex64RoundTrip(x: u64)
    ensures ParseX64(Hex64(x)) == x
  {
    NumeralRoundTrip(x, 16);
  }

  /** `%w`: two lower-case digits per byte, high nibble first. */
  function HexBytes(bs: seq<byte>): (s: seq<char>)
    ensures |s| == 2 * |bs|
    ensures UnHexBytes(s) == bs
  {
    seq(2 * |bs|, k requires 0 <= k < 2 * |bs| =>
      if k % 2 == 0 then Digit(bs[k / 2] / 16) else Digit(bs[k / 2] % 16))
  }

  /** One byte from two digits: `ch_hex(hi) << 4` plus `ch_hex(lo)`. */
  function PairVal(hi: char, lo: char): byte
  {
    HexVal(hi) * 16 + HexVal(lo)
  }

  /** The decoding loops of `nonce_validate` and `str_hex`: byte `k` comes
      from characters `2k` and `2k+1`; characters that are not hexadecimal
      digits read as 0. */
  function UnHexBytes(s: seq<char>): (bs: seq<byte>)
    ensures |bs| == |s| / 2
    ensures forall k :: 0 <= k < |bs| ==> bs[k] == PairVal(s[2 * k], s[2 * k + 1])
  {
    seq(|s| / 2, k requires 0 <= k < |s| / 2 => PairVal(s[2 * k], s[2 * k + 1]))
  }
}
