/** Bit-exact encodings used by the command interpreter: the 4-bit lane
    reversal of the memory views, little-endian byte images of 64-bit words,
    fixed-width hexadecimal text, the DSU run-control word and the MCPUID
    decoding. Everything is stated on unbounded integers; where the source
    masks or shifts, the model divides and takes remainders. */
module Bits {
  import opened Types

  // ---------------------------------------------------------------------
  // Powers and a division fact shared by the byte and hex encodings

  function Pow(b: nat, n: nat): (r: nat)
    requires b > 0
    ensures r > 0
  {
    if n == 0 then 1 else b * Pow(b, n - 1)
  }

  /** Splitting a remainder by b*m into its low digit and the rest. */
  lemma ModSplit(v: nat, b: nat, m: nat)
    requires b > 0 && m > 0
    ensures v % (b * m) == b * ((v / b) % m) + v % b
  {
    var q, r := v / b, v % b;
    var a, c := q / m, q % m;
    assert v == b * q + r;
    assert q == m * a + c;
    assert v == b * (m * a + c) + r;
    Regroup(b, m, a, c, r);
    var d := b * m;
    ModUnique(v, d, a, b * c + r);
  }

  /** b*(m*a + c) + r regrouped around the divisor b*m, with b*c + r below it. */
  lemma Regroup(b: nat, m: nat, a: nat, c: nat, r: nat)
    requires c < m && r < b
    ensures b * (m * a + c) + r == (b * m) * a + (b * c + r)
    ensures b * c + r < b * m
  {
    Distrib(b, m * a, c);
    assert b * (m * a) == (b * m) * a;
    Distrib(b, c, m - c);
    MulAtLeast(b, m - c);
  }

  lemma Distrib(x: nat, y: nat, z: nat)
    ensures x * (y + z) == x * y + x * z
  {
  }

  lemma ModUnique(v: nat, d: nat, q: nat, r: nat)
    requires d > 0 && v == d * q + r && r < d
    ensures v % d == r && v / d == q
  {
    var q', r' := v / d, v % d;
    assert d * q' + r' == d * q + r;
    if q' < q {
      assert d * (q - q') == r' - r;
      MulAtLeast(d, q - q');
    } else if q' > q {
      assert d * (q' - q) == r - r';
      MulAtLeast(d, q' - q);
    }
  }

  lemma MulAtLeast(d: nat, k: nat)
    requires k >= 1
    ensures d * k >= d
  {
    assert d * k == d * (k - 1) + d;
  }

  // ---------------------------------------------------------------------
  // Lane reversal: inv = (i & ~0xF) | (0xF - (i & 0xF))

  /** i & ~0xF: the start of i's 16-byte block. */
  function BlockStart(i: nat): (r: nat)
    ensures r <= i < r + 16 && r % 16 == 0
  {
    i - i % 16
  }

  /** The lane-reversed position of i inside its 16-byte block. */
  function Inv(i: nat): nat
  {
    BlockStart(i) + (15 - i % 16)
  }

  /** Reversal keeps a position in its own block, is an involution, and maps
      lane k to lane 15-k. */
  lemma InvProperties(i: nat)
    ensures BlockStart(Inv(i)) == BlockStart(i)
    ensures Inv(i) % 16 == 15 - i % 16
    ensures Inv(Inv(i)) == i
    ensures u64?(i) ==> u64?(Inv(i))
  {
    var s := BlockStart(i);
    assert s % 16 == 0;
    ModUnique(Inv(i), 16, s / 16, 15 - i % 16);
    ModUnique(i, 16, s / 16, i % 16);
  }

  ghost predicate u64?(x: int) { 0 <= x < U64_LIMIT }

  // ---------------------------------------------------------------------
  // Little-endian byte images (the host is little-endian: the source
  // reinterprets uint64_t variables as byte buffers)

  /** The n low bytes of v, least significant first. */
  function LeBytes(v: nat, n: nat): (r: seq<byte>)
    ensures |r| == n
  {
    if n == 0 then [] else [v % 256] + LeBytes(v / 256, n - 1)
  }

  /** The number whose little-endian image is s. */
  function FromLe(s: seq<byte>): (r: nat)
    ensures r < Pow(256, |s|)
  {
    if s == [] then 0 else s[0] + 256 * FromLe(s[1..])
  }

  /** Encoding then decoding keeps the value modulo 256^n. */
  lemma {:induction false} FromLeOfLeBytes(v: nat, n: nat)
    ensures FromLe(LeBytes(v, n)) == v % Pow(256, n)
  {
    if n > 0 {
      var s := LeBytes(v, n);
      assert s[1..] == LeBytes(v / 256, n - 1);
      FromLeOfLeBytes(v / 256, n - 1);
      ModSplit(v, 256, Pow(256, n - 1));
    }
  }

  /** Decoding then encoding gives back the same bytes. */
  lemma {:induction false} LeBytesOfFromLe(s: seq<byte>)
    ensures LeBytes(FromLe(s), |s|) == s
  {
    if s != [] {
      var v := FromLe(s);
      assert v % 256 == s[0] && v / 256 == FromLe(s[1..]) by {
        ModUnique(v, 256, FromLe(s[1..]), s[0]);
      }
      LeBytesOfFromLe(s[1..]);
    }
  }

  /** The 8-byte image of a 64-bit value, as the TAP sees a uint64_t:
      byte k is v / 256^k mod 256. */
  function Le8(v: u64): (r: seq<byte>)
    ensures |r| == 8
  {
    seq(8, k requires 0 <= k < 8 => (v / Pow(256, k)) % 256)
  }

  /** The image is the 8-byte little-endian encoding. */
  lemma Le8IsLeBytes(v: u64)
    ensures Le8(v) == LeBytes(v, 8)
  {
    forall k | 0 <= k < 8
      ensures Le8(v)[k] == LeBytes(v, 8)[k]
    {
      LeBytesAt(v, 8, k);
    }
  }

  lemma {:induction false} LeBytesAt(v: nat, n: nat, k: nat)
    requires k < n
    ensures LeBytes(v, n)[k] == (v / Pow(256, k)) % 256
  {
    if k > 0 {
      LeBytesAt(v / 256, n - 1, k - 1);
      DivDiv(v, 256, Pow(256, k - 1));
    }
  }

  /** Dividing by b then by c is dividing by b*c. */
  lemma DivDiv(a: nat, b: nat, c: nat)
    requires b > 0 && c > 0
    ensures (a / b) / c == a / (b * c)
  {
    var q, r := a / b, a % b;
    var q2, r2 := q / c, q % c;
    assert a == b * q + r;
    assert q == c * q2 + r2;
    assert a == b * (c * q2 + r2) + r;
    Regroup(b, c, q2, r2, r);
    ModUnique(a, b * c, q2, b * r2 + r);
  }

  lemma Le8RoundTrip(v: u64)
    ensures FromLe(Le8(v)) == v
  {
    Le8IsLeBytes(v);
    FromLeOfLeBytes(v, 8);
    Pow8();
  }

  lemma Pow8()
    ensures Pow(256, 8) == U64_LIMIT
  {
  }

  // ---------------------------------------------------------------------
  // Fixed-width lower-case hexadecimal, as printf's %0Nx

  function HexDigit(d: nat): (c: char)
    requires d < 16
  {
    if d < 10 then (48 + d) as char else (87 + d) as char
  }

  predicate IsHexDigit(c: char)
  {
    '0' <= c <= '9' || 'a' <= c <= 'f'
  }

  function DigitValue(c: char): (d: nat)
    requires IsHexDigit(c)
    ensures d < 16 && HexDigit(d) == c
  {
    if c <= '9' then c as int - 48 else c as int - 87
  }

  /** The n low hex digits of v, most significant first (%0nx when v < 16^n). */
  function Hex(v: nat, n: nat): (s: string)
    ensures |s| == n
    ensures forall k :: 0 <= k < n ==> IsHexDigit(s[k])
  {
    if n == 0 then [] else Hex(v / 16, n - 1) + [HexDigit(v % 16)]
  }

  function HexValue(s: string): nat
    requires forall k :: 0 <= k < |s| ==> IsHexDigit(s[k])
  {
    if s == [] then 0 else 16 * HexValue(s[..|s| - 1]) + DigitValue(s[|s| - 1])
  }

  /** Reading the printed digits back gives the value modulo 16^n: the text
      loses nothing of a value that fits the width. */
  lemma {:induction false} HexRoundTrip(v: nat, n: nat)
    ensures HexValue(Hex(v, n)) == v % Pow(16, n)
  {
    if n > 0 {
      var s := Hex(v, n);
      assert s[..n - 1] == Hex(v / 16, n - 1);
      HexRoundTrip(v / 16, n - 1);
      assert DigitValue(HexDigit(v % 16)) == v % 16;
      ModSplit(v, 16, Pow(16, n - 1));
    }
  }

  /** %02x of a byte. */
  function Hex2(b: byte): (s: string)
    ensures |s| == 2 && forall k :: 0 <= k < 2 ==> IsHexDigit(s[k])
    ensures HexValue(s) == b
  {
    HexRoundTrip(b, 2);
    Hex(b, 2)
  }

  /** %016x of a 64-bit value. */
  function Hex16(v: u64): (s: string)
    ensures |s| == 16 && forall k :: 0 <= k < 16 ==> IsHexDigit(s[k])
    ensures HexValue(s) == v
  {
    HexRoundTrip(v, Digits64());
    Pow16Width();
    Hex(v, Digits64())
  }

  /** The hex digits of a 64-bit value (kept behind a function so that the
      verifier does not unfold Hex sixteen times). */
  function Digits64(): nat { 16 }

  lemma Pow16Width()
    ensures Pow(16, 16) == U64_LIMIT
  {
    assert Pow(16, 4) == 0x1_0000;
    assert Pow(16, 8) == 0x1_0000 * 0x1_0000 by {
      assert Pow(16, 8) == 16 * 16 * 16 * 16 * Pow(16, 4);
    }
    assert Pow(16, 12) == 16 * 16 * 16 * 16 * Pow(16, 8);
    assert Pow(16, 16) == 16 * 16 * 16 * 16 * Pow(16, 12);
  }

  /** Whether every character of s is a decimal digit. */
  predicate IsDecimal(s: string)
  {
    forall k :: 0 <= k < |s| ==> '0' <= s[k] <= '9'
  }

  /** The number a string of decimal digits denotes. */
  function DecValue(s: string): nat
    requires IsDecimal(s)
    decreases |s|
  {
    if s == [] then 0 else 10 * DecValue(s[..|s| - 1]) + (s[|s| - 1] as int - 48)
  }

  /** %d of a non-negative number: decimal digits without a leading zero. */
  function Dec(n: nat): (s: string)
    ensures |s| >= 1 && IsDecimal(s)
    ensures |s| > 1 ==> s[0] != '0'
  {
    if n < 10 then [(48 + n) as char] else Dec(n / 10) + [(48 + n % 10) as char]
  }

  /** The digits Dec prints denote the number printed. */
  lemma {:induction false} DecRoundTrip(n: nat)
    ensures DecValue(Dec(n)) == n
  {
    if n >= 10 {
      var s := Dec(n);
      assert s[..|s| - 1] == Dec(n / 10);
      DecRoundTrip(n / 10);
    }
  }

  /** %lld of a uint64_t: the value read as signed 64-bit, so a value of
      2^63 or more prints as minus its distance to 2^64. */
  function DecSigned64(v: u64): (s: string)
    ensures |s| >= 1
    ensures v < 0x8000_0000_0000_0000 <==> s[0] != '-'
    ensures v < 0x8000_0000_0000_0000 ==> IsDecimal(s) && DecValue(s) == v
    ensures v >= 0x8000_0000_0000_0000 ==> IsDecimal(s[1..]) && DecValue(s[1..]) == U64_LIMIT - v
  {
    if v < 0x8000_0000_0000_0000 then
      DecRoundTrip(v);
      Dec(v)
    else
      var d := Dec(U64_LIMIT - v);
      DecRoundTrip(U64_LIMIT - v);
      assert ("-" + d)[1..] == d;
      "-" + d
  }

  // ---------------------------------------------------------------------
  // The DSU run-control word: bit0 halt, bit1 stepping, bits 2-3 reserved,
  // bits 4-19 core_id, bits 20-63 reserved

  datatype RunControl = RunControl(halt: bool, stepping: bool, coreId: u16)

  function BitValue(b: bool): nat { if b then 1 else 0 }

  /** DsuRunControlRegType.val for the given fields, reserved bits zero. */
  function EncodeRunControl(c: RunControl): (v: u64)
    ensures v % 2 == BitValue(c.halt)
    ensures (v / 2) % 2 == BitValue(c.stepping)
    ensures (v / 4) % 4 == 0
    ensures (v / 16) % 0x1_0000 == c.coreId
    ensures v < 0x10_0000
  {
    BitValue(c.halt) + 2 * BitValue(c.stepping) + 16 * c.coreId
  }

  /** The fields of a control word read through the bitfield view. */
  function DecodeRunControl(v: u64): RunControl
  {
    RunControl(v % 2 == 1, (v / 2) % 2 == 1, (v / 16) % 0x1_0000)
  }

  /** Decoding an encoded word gives back its fields. */
  lemma RunControlRoundTrip(c: RunControl)
    ensures DecodeRunControl(EncodeRunControl(c)) == c
  {
  }

  /** A word whose reserved bits are zero is the encoding of its own
      fields. */
  lemma RunControlCanonical(v: u64)
    requires (v / 4) % 4 == 0 && v < 0x10_0000
    ensures EncodeRunControl(DecodeRunControl(v)) == v
  {
    var q := v / 16;
    assert v == 16 * q + v % 16;
    assert q < 0x1_0000;
    LowNibble(v);
  }

  /** The low four bits of a word whose bits 2-3 are clear are its two low
      bits. */
  lemma LowNibble(v: nat)
    requires (v / 4) % 4 == 0
    ensures v % 16 == v % 2 + 2 * ((v / 2) % 2)
  {
    ModSplit(v, 2, 8);
    ModSplit(v / 2, 2, 4);
    assert (v / 2) / 2 == v / 4;
  }

  // ---------------------------------------------------------------------
  // MCPUID: base ISA in bits 63:62, extension letters 'A'+i for bit i < 26

  const MCPUID_BASE: seq<string> := ["RV32I", "RV32E", "RV64I", "RV128I"]

  function Bit(v: nat, i: nat): bool
  {
    (v / Pow(2, i)) % 2 == 1
  }

  /** The base-ISA label picked by (csr >> 62) & 0x3: the top two bits of a
      64-bit value are its quotient by 2^62. */
  function McpuidBase(csr: u64): (s: string)
    ensures s in MCPUID_BASE
  {
    MCPUID_BASE[csr / 0x4000_0000_0000_0000]
  }

  /** The letters printed for the set bits among bits 0..n-1, 'I' skipped. */
  function ExtLetters(csr: u64, n: nat): (s: string)
    requires n <= 26
  {
    if n == 0 then []
    else ExtLetters(csr, n - 1) + (if Bit(csr, n - 1) && n - 1 != 8 then [(65 + n - 1) as char] else [])
  }

  /** A letter is printed exactly when its bit is set and it is not 'I'; the
      letters come in strictly increasing order. */
  lemma {:induction false} ExtLettersSpec(csr: u64, n: nat)
    requires n <= 26
    ensures forall c :: c in ExtLetters(csr, n) <==>
      'A' <= c < (65 + n) as char && c != 'I' && Bit(csr, c as int - 65)
    ensures forall j, k :: 0 <= j < k < |ExtLetters(csr, n)| ==>
      ExtLetters(csr, n)[j] < ExtLetters(csr, n)[k]
  {
    if n > 0 {
      ExtLettersSpec(csr, n - 1);
      var prev := ExtLetters(csr, n - 1);
      var s := ExtLetters(csr, n);
      var c := (65 + n - 1) as char;
      forall x ensures x in s <==> 'A' <= x < (65 + n) as char && x != 'I' && Bit(csr, x as int - 65) {
        if x == c {
          assert x !in prev;
        }
      }
      forall j, k | 0 <= j < k < |s| ensures s[j] < s[k] {
        if k == |s| - 1 && |s| > |prev| {
          assert s[j] in prev;
        }
      }
    }
  }
}
