/** The Base32 encoder, against the decoding of section 6 of RFC 4648. */
module Base32 {

  type Bytes = seq<bv8>

  const TABLE := "ABCDEFGHIJKLMNOPQRSTUVWXYZ234567"
  const PADDING := '='
  const BLOCK_SIZE := 5
  const BUFFER_SIZE := 8

  function EncodeChar(digit: bv8): char
    requires digit < 32
  {
    TABLE[digit as int]
  }

  /** The value of a symbol of the alphabet. */
  function Value(symbol: char): bv8 {
    if 'A' <= symbol <= 'Z' then (symbol as int - 'A' as int) as bv8
    else if '2' <= symbol <= '7' then (symbol as int - '2' as int + 26) as bv8
    else 0
  }

  /** The table lists the alphabet in the order of its values. */
  lemma ValueOfChar(digit: bv8)
    requires digit < 32
    ensures Value(EncodeChar(digit)) == digit && EncodeChar(digit) != PADDING
    ensures var k := digit as int;
            EncodeChar(digit) as int == if k < 26 then 'A' as int + k else '2' as int + k - 26
  {
    var k := digit as int;
    assert TABLE[k] == (if k < 26 then ('A' as int + k) as char else ('2' as int + k - 26) as char);
    assert k as bv8 == digit;
  }

  /** The eight five-bit digits of five bytes. */
  function Digits(src: Bytes): Bytes
    requires |src| == BLOCK_SIZE
  {
    [ (src[0] >> 3) & 0x1F,
      ((src[0] << 2) & 0x1C) + ((src[1] >> 6) & 0x03),
      (src[1] >> 1) & 0x1F,
      ((src[1] << 4) & 0x10) + ((src[2] >> 4) & 0x0F),
      ((src[2] << 1) & 0x1E) + ((src[3] >> 7) & 0x01),
      (src[3] >> 2) & 0x1F,
      ((src[3] << 3) & 0x18) + ((src[4] >> 5) & 0x07),
      (src[4] << 0) & 0x1F ]
  }

  /** Five bytes, most significant first, as one 40-bit number. */
  function Number(b: Bytes): bv40
    requires |b| == BLOCK_SIZE
  {
    (b[0] as bv40 << 32) | (b[1] as bv40 << 24) | (b[2] as bv40 << 16) | (b[3] as bv40 << 8) | b[4] as bv40
  }

  /** Eight five-bit digits, most significant first, as one 40-bit number. */
  function NumberOfDigits(d: Bytes): bv40
    requires |d| == BUFFER_SIZE
  {
    (d[0] as bv40 << 35) | (d[1] as bv40 << 30) | (d[2] as bv40 << 25) | (d[3] as bv40 << 20)
    | (d[4] as bv40 << 15) | (d[5] as bv40 << 10) | (d[6] as bv40 << 5) | d[7] as bv40
  }

  function BytesOf(n: bv40): (b: Bytes)
    ensures |b| == BLOCK_SIZE
  {
    [ ((n >> 32) & 0xFF) as bv8,
      ((n >> 24) & 0xFF) as bv8,
      ((n >> 16) & 0xFF) as bv8,
      ((n >> 8) & 0xFF) as bv8,
      (n & 0xFF) as bv8 ]
  }

  lemma DigitsSmall(src: Bytes)
    requires |src| == BLOCK_SIZE
    ensures forall k | 0 <= k < BUFFER_SIZE :: Digits(src)[k] < 32
  {
  }

  /** The digits denote the number that the bytes denote. */
  lemma DigitsDenote(src: Bytes)
    requires |src| == BLOCK_SIZE
    ensures NumberOfDigits(Digits(src)) == Number(src)
    ensures BytesOf(Number(src)) == src
  {
  }

  // --------------------------------------------------------------- encoding

  function Symbols(src: Bytes): (t: string)
    requires |src| == BLOCK_SIZE
    ensures |t| == BUFFER_SIZE
  {
    DigitsSmall(src);
    seq(BUFFER_SIZE, k requires 0 <= k < BUFFER_SIZE => EncodeChar(Digits(src)[k]))
  }

  /** A last, shorter group is filled up with zero bytes. */
  function Filled(b: Bytes): (src: Bytes)
    requires |b| <= BLOCK_SIZE
    ensures |src| == BLOCK_SIZE
  {
    b + seq(BLOCK_SIZE - |b|, _ => 0)
  }

  function NumPad(remain: nat): nat {
    match remain
    case 1 => 6
    case 2 => 4
    case 3 => 3
    case 4 => 1
    case _ => 0
  }

  function Repeat(c: char, n: nat): string {
    seq(n, _ => c)
  }

  function LastGroup(b: Bytes, padding: bool): string
    requires 0 < |b| < BLOCK_SIZE
  {
    var numPad := NumPad(|b|);
    Symbols(Filled(b))[..BUFFER_SIZE - numPad] + (if padding then Repeat(PADDING, numPad) else "")
  }

  function Encoded(b: Bytes, padding: bool): string {
    if |b| >= BLOCK_SIZE then Symbols(b[..BLOCK_SIZE]) + Encoded(b[BLOCK_SIZE..], padding)
    else if b == [] then ""
    else LastGroup(b, padding)
  }

  method Encode5(src: Bytes, dst: array<char>)
    requires |src| == BLOCK_SIZE && dst.Length == BUFFER_SIZE
    modifies dst
    ensures dst[..] == Symbols(src)
  {
    DigitsSmall(src);
    dst[0] := EncodeChar((src[0] >> 3) & 0x1F);
    dst[1] := EncodeChar(((src[0] << 2) & 0x1C) + ((src[1] >> 6) & 0x03));
    dst[2] := EncodeChar((src[1] >> 1) & 0x1F);
    dst[3] := EncodeChar(((src[1] << 4) & 0x10) + ((src[2] >> 4) & 0x0F));
    dst[4] := EncodeChar(((src[2] << 1) & 0x1E) + ((src[3] >> 7) & 0x01));
    dst[5] := EncodeChar((src[3] >> 2) & 0x1F);
    dst[6] := EncodeChar(((src[3] << 3) & 0x18) + ((src[4] >> 5) & 0x07));
    dst[7] := EncodeChar((src[4] << 0) & 0x1F);
  }

  lemma BlockFirst(input: Bytes, padding: bool, at: nat)
    requires at + BLOCK_SIZE <= |input|
    ensures Encoded(input[at..], padding)
            == Symbols(input[at..at + BLOCK_SIZE]) + Encoded(input[at + BLOCK_SIZE..], padding)
  {
    assert input[at..][..BLOCK_SIZE] == input[at..at + BLOCK_SIZE];
    assert input[at..][BLOCK_SIZE..] == input[at + BLOCK_SIZE..];
  }

  method EncodeString(input: Bytes, padding: bool) returns (res: string)
    ensures res == Encoded(input, padding)
  {
    res := "";
    var buffer := new char[BUFFER_SIZE];
    var at, end := 0, |input|;
    while at + BLOCK_SIZE <= end
      invariant at <= end
      invariant Encoded(input, padding) == res + Encoded(input[at..], padding)
    {
      Encode5(input[at..at + BLOCK_SIZE], buffer);
      BlockFirst(input, padding, at);
      assert res + (buffer[..] + Encoded(input[at + BLOCK_SIZE..], padding))
             == res + buffer[..] + Encoded(input[at + BLOCK_SIZE..], padding);
      res := res + buffer[..];
      at := at + BLOCK_SIZE;
    }
    if at != end {
      var last := EncodeLast(input[at..], padding, buffer);
      res := res + last;
    }
  }

  /** The bytes that do not fill a block: filled up with zeros, and only as many symbols as they need. */
  method EncodeLast(input: Bytes, padding: bool, buffer: array<char>) returns (res: string)
    requires 0 < |input| < BLOCK_SIZE && buffer.Length == BUFFER_SIZE
    modifies buffer
    ensures res == LastGroup(input, padding)
  {
    var remain: nat := |input|;
    var padded := new bv8[BLOCK_SIZE];
    for ii := 0 to remain
      invariant padded[..ii] == input[..ii]
    {
      padded[ii] := input[ii];
    }
    for ii := remain to BLOCK_SIZE
      invariant padded[..remain] == input
      invariant forall k | remain <= k < ii :: padded[k] == 0
    {
      padded[ii] := 0;
    }
    assert padded[..] == Filled(input);
    Encode5(padded[..], buffer);
    var numPad := NumPad(remain);
    res := buffer[..BUFFER_SIZE - numPad];
    ghost var symbols := res;
    assert symbols == buffer[..][..BUFFER_SIZE - numPad];
    if padding {
      for ii := 0 to numPad
        invariant res == symbols + Repeat(PADDING, ii)
      {
        res := res + [PADDING];
      }
    }
  }

  // --------------------------------------------------------------- decoding

  /** The symbols in front of the padding. */
  function Core(t: string): (core: string)
    ensures |core| <= |t|
  {
    if t == "" || t[0] == PADDING then "" else [t[0]] + Core(t[1..])
  }

  function Values(t: string): (d: Bytes)
    ensures |d| == |t|
  {
    seq(|t|, k requires 0 <= k < |t| => Value(t[k]))
  }

  /** The whole bytes in a group of at most eight symbols; missing symbols count as zero. */
  function DecodedGroup(t: string): Bytes
    requires |t| <= BUFFER_SIZE
  {
    BytesOf(NumberOfDigits(Values(t) + seq(BUFFER_SIZE - |t|, _ => 0)))[..5 * |t| / 8]
  }

  function DecodedCore(t: string): Bytes {
    if |t| >= BUFFER_SIZE then DecodedGroup(t[..BUFFER_SIZE]) + DecodedCore(t[BUFFER_SIZE..]) else DecodedGroup(t)
  }

  function Decoded(t: string): Bytes {
    DecodedCore(Core(t))
  }

  lemma ValuesOfSymbols(src: Bytes)
    requires |src| == BLOCK_SIZE
    ensures Values(Symbols(src)) == Digits(src) && PADDING !in Symbols(src)
  {
    DigitsSmall(src);
    forall k | 0 <= k < BUFFER_SIZE
      ensures Value(Symbols(src)[k]) == Digits(src)[k] && Symbols(src)[k] != PADDING
    {
      ValueOfChar(Digits(src)[k]);
    }
  }

  /** Eight symbols denote the 40-bit number of their five bytes. */
  lemma BlockDenotes(src: Bytes)
    requires |src| == BLOCK_SIZE
    ensures NumberOfDigits(Values(Symbols(src))) == Number(src) && DecodedGroup(Symbols(src)) == src
  {
    ValuesOfSymbols(src);
    DigitsDenote(src);
    var values := Values(Symbols(src));
    assert values + seq(0, _ => 0) == values;
    assert BytesOf(Number(src))[..5] == src;
  }

  /** The symbols that are not written for a short group are all zero digits. */
  lemma UnwrittenAreZero(b: Bytes)
    requires 0 < |b| < BLOCK_SIZE
    ensures forall k | BUFFER_SIZE - NumPad(|b|) <= k < BUFFER_SIZE :: Digits(Filled(b))[k] == 0
  {
    assert forall k | |b| <= k < BLOCK_SIZE :: Filled(b)[k] == 0;
  }

  lemma GroupDecodes(b: Bytes)
    requires 0 < |b| < BLOCK_SIZE
    ensures DecodedGroup(Symbols(Filled(b))[..BUFFER_SIZE - NumPad(|b|)]) == b
  {
    var src, n := Filled(b), BUFFER_SIZE - NumPad(|b|);
    var t := Symbols(src)[..n];
    ValuesOfSymbols(src);
    UnwrittenAreZero(b);
    DigitsDenote(src);
    assert Values(t) + seq(BUFFER_SIZE - n, _ => 0) == Digits(src) by {
      assert forall k | 0 <= k < n :: Values(t)[k] == Values(Symbols(src))[k];
    }
    assert 5 * n / 8 == |b|;
    assert src[..|b|] == b;
  }

  lemma CoreOf(t: string, n: nat)
    requires PADDING !in t
    ensures Core(t + Repeat(PADDING, n)) == t && Core(t) == t
  {
    if t != "" {
      CoreOf(t[1..], n);
      assert (t + Repeat(PADDING, n))[1..] == t[1..] + Repeat(PADDING, n);
    } else {
      assert t + Repeat(PADDING, n) == Repeat(PADDING, n);
    }
  }

  /** Padding only appends as many padding characters as the last group wants. */
  lemma {:induction false} PaddingAppends(b: Bytes)
    ensures Encoded(b, true) == Encoded(b, false) + Repeat(PADDING, NumPad(|b| % BLOCK_SIZE))
    ensures PADDING !in Encoded(b, false)
  {
    if |b| >= BLOCK_SIZE {
      PaddingAppends(b[BLOCK_SIZE..]);
      ValuesOfSymbols(b[..BLOCK_SIZE]);
    } else if b != [] {
      ValuesOfSymbols(Filled(b));
    }
  }

  lemma {:induction false} CoreDecodes(b: Bytes)
    ensures DecodedCore(Encoded(b, false)) == b
  {
    if |b| >= BLOCK_SIZE {
      CoreDecodes(b[BLOCK_SIZE..]);
      BlockDenotes(b[..BLOCK_SIZE]);
      var first, rest := Symbols(b[..BLOCK_SIZE]), Encoded(b[BLOCK_SIZE..], false);
      assert (first + rest)[..BUFFER_SIZE] == first && (first + rest)[BUFFER_SIZE..] == rest;
      assert b == b[..BLOCK_SIZE] + b[BLOCK_SIZE..];
    } else if b != [] {
      GroupDecodes(b);
      var t := Symbols(Filled(b))[..BUFFER_SIZE - NumPad(|b|)];
      assert LastGroup(b, false) == t;
    }
  }

  /** Decoding gives back every byte sequence, encoded with or without padding. */
  lemma RoundTrip(b: Bytes, padding: bool)
    ensures Decoded(Encoded(b, padding)) == b
  {
    PaddingAppends(b);
    CoreOf(Encoded(b, false), NumPad(|b| % BLOCK_SIZE));
    CoreDecodes(b);
  }

  /** Eight bits a byte and five a symbol, rounded up; with padding, whole groups of eight. */
  lemma {:induction false} Lengths(b: Bytes)
    ensures |Encoded(b, false)| == (8 * |b| + 4) / 5
    ensures |Encoded(b, true)| == 8 * ((|b| + 4) / 5)
  {
    if |b| >= BLOCK_SIZE {
      Lengths(b[BLOCK_SIZE..]);
    }
  }

  // ------------------------------------- the examples of section 10 of RFC 4648

  lemma SymbolsOf(b: Bytes, d: Bytes)
    requires |b| == BLOCK_SIZE && d == Digits(b)
    ensures |d| == BUFFER_SIZE && forall k | 0 <= k < BUFFER_SIZE :: d[k] < 32
    ensures forall k | 0 <= k < BUFFER_SIZE :: Symbols(b)[k] == TABLE[d[k] as int]
  {
    DigitsSmall(b);
  }

  lemma OneByteExample()
    ensures Encoded([0x66], true) == "MY======"
  {
    var b: Bytes, d: Bytes := [0x66, 0, 0, 0, 0], [12, 24, 0, 0, 0, 0, 0, 0];
    assert Filled([0x66]) == b;
    SymbolsOf(b, d);
    assert Symbols(b)[..2] == "MY" && Repeat(PADDING, 6) == "======";
  }

  lemma TwoBytesExample()
    ensures Encoded([0x66, 0x6F], true) == "MZXQ===="
  {
    var b: Bytes, d: Bytes := [0x66, 0x6F, 0, 0, 0], [12, 25, 23, 16, 0, 0, 0, 0];
    assert Filled([0x66, 0x6F]) == b;
    SymbolsOf(b, d);
    assert Symbols(b)[..4] == "MZXQ" && Repeat(PADDING, 4) == "====";
  }

  lemma ThreeBytesExample()
    ensures Encoded([0x66, 0x6F, 0x6F], true) == "MZXW6==="
  {
    var b: Bytes, d: Bytes := [0x66, 0x6F, 0x6F, 0, 0], [12, 25, 23, 22, 30, 0, 0, 0];
    assert Filled([0x66, 0x6F, 0x6F]) == b;
    SymbolsOf(b, d);
    assert Symbols(b)[..5] == "MZXW6" && Repeat(PADDING, 3) == "===";
  }

  lemma FourBytesExample()
    ensures Encoded([0x66, 0x6F, 0x6F, 0x62], true) == "MZXW6YQ="
  {
    var b: Bytes, d: Bytes := [0x66, 0x6F, 0x6F, 0x62, 0], [12, 25, 23, 22, 30, 24, 16, 0];
    assert Filled([0x66, 0x6F, 0x6F, 0x62]) == b;
    SymbolsOf(b, d);
    assert Symbols(b)[..7] == "MZXW6YQ" && Repeat(PADDING, 1) == "=";
  }

  lemma FiveBytesExample()
    ensures Encoded([0x66, 0x6F, 0x6F, 0x62, 0x61], true) == "MZXW6YTB"
  {
    var b: Bytes, d: Bytes := [0x66, 0x6F, 0x6F, 0x62, 0x61], [12, 25, 23, 22, 30, 24, 19, 1];
    SymbolsOf(b, d);
    assert b[..5] == b && b[5..] == [] && Encoded([], true) == "";
    assert Symbols(b) == "MZXW6YTB";
  }
}
