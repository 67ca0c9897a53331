/**
 * The hand-written Base64 decoder of `JwtHelper` (`getByte64` and
 * `base64Decode`). It uses the standard alphabet of section 4 of RFC 4648,
 * insists on `=`-padded input whose length is a multiple of 4, and yields one
 * character per decoded byte (char codes 0..255, no UTF-8 decoding).
 * `Encode` is an independent reference encoder (the inverse direction) used to
 * state the round trip.
 */
module Base64 {
  import opened Wrappers

  const Upper: string := "ABCDEFGHIJKLMNOPQRSTUVWXYZ"
  const Lower: string := "abcdefghijklmnopqrstuvwxyz"
  const Digits: string := "0123456789"
  /**
   * `ALPHA`: the standard alphabet, "A..Za..z0..9+/". It is written as a
   * concatenation of shorter literals only so that the verifier can index it.
   */
  const Alphabet: string := Upper + Lower + Digits + "+/"
  /** `PADCHAR` */
  const PadChar: char := '='

  type Sextet = x: int | 0 <= x < 64
  type Byte = x: int | 0 <= x < 256

  /** The alphabet character for a sextet, by character ranges. */
  function SextetChar(v: Sextet): char {
    if v < 26 then ('A' as int + v) as char
    else if v < 52 then ('a' as int + (v - 26)) as char
    else if v < 62 then ('0' as int + (v - 52)) as char
    else if v == 62 then '+'
    else '/'
  }

  lemma AlphabetByRanges()
    ensures |Alphabet| == 64
    ensures forall v: Sextet :: Alphabet[v] == SextetChar(v)
  {
    forall v: Sextet ensures Alphabet[v] == SextetChar(v) {
      if v < 26 {
        assert Alphabet[v] == Upper[v];
      } else if v < 52 {
        assert Alphabet[v] == Lower[v - 26];
      } else if v < 62 {
        assert Alphabet[v] == Digits[v - 52];
      }
    }
  }

  lemma SextetCharInjective(v: Sextet, w: Sextet)
    requires SextetChar(v) == SextetChar(w)
    ensures v == w
  {
  }

  /** Membership in the alphabet, by character ranges. */
  predicate IsAlphabetChar(c: char) {
    ('A' <= c <= 'Z') || ('a' <= c <= 'z') || ('0' <= c <= '9') || c == '+' || c == '/'
  }

  lemma AlphabetCharHasSextet(c: char) returns (v: Sextet)
    requires IsAlphabetChar(c)
    ensures SextetChar(v) == c
  {
    if 'A' <= c <= 'Z' {
      v := c as int - 'A' as int;
    } else if 'a' <= c <= 'z' {
      v := c as int - 'a' as int + 26;
    } else if '0' <= c <= '9' {
      v := c as int - '0' as int + 52;
    } else if c == '+' {
      v := 62;
    } else {
      v := 63;
    }
  }

  /** `String.prototype.indexOf` with a one-character needle: the first position of `c` in `s`, or -1. */
  function IndexOf(s: string, c: char): (r: int)
    ensures -1 <= r < |s|
    ensures 0 <= r ==> s[r] == c
  {
    if |s| == 0 then -1
    else if s[0] == c then 0
    else
      var r := IndexOf(s[1..], c);
      if r == -1 then -1 else r + 1
  }

  /** `indexOf` finds the first occurrence: no position before its result holds `c`. */
  lemma {:induction false} IndexOfFirst(s: string, c: char, j: nat)
    requires j < |s| && (IndexOf(s, c) == -1 || j < IndexOf(s, c))
    ensures s[j] != c
  {
    if j > 0 {
      IndexOfFirst(s[1..], c, j - 1);
    }
  }

  /** `ALPHA.indexOf(c)` finds exactly the characters of the ranges, at their sextet value. */
  lemma IndexOfAlphabet(c: char)
    ensures IndexOf(Alphabet, c) == -1 <==> !IsAlphabetChar(c)
    ensures IndexOf(Alphabet, c) != -1 ==> SextetChar(IndexOf(Alphabet, c)) == c
  {
    AlphabetByRanges();
    var r := IndexOf(Alphabet, c);
    if IsAlphabetChar(c) {
      var v := AlphabetCharHasSextet(c);
      assert Alphabet[v] == c;
      if r == -1 {
        IndexOfFirst(Alphabet, c, v);
      }
    }
    if r != -1 {
      assert Alphabet[r] == c;
    }
  }

  /** The sextet an alphabet character stands for, by character ranges; `None` off the alphabet. */
  function SextetOf(c: char): (r: Option<Sextet>)
    ensures r.Some? <==> IsAlphabetChar(c)
    ensures r.Some? ==> SextetChar(r.value) == c
  {
    if 'A' <= c <= 'Z' then Some(c as int - 'A' as int)
    else if 'a' <= c <= 'z' then Some(c as int - 'a' as int + 26)
    else if '0' <= c <= '9' then Some(c as int - '0' as int + 52)
    else if c == '+' then Some(62)
    else if c == '/' then Some(63)
    else None
  }

  /** `SextetOf` is what the source computes with `ALPHA.indexOf(c)`: the position, or -1 for "not found". */
  lemma SextetOfIsIndexOf(c: char)
    ensures SextetOf(c) == (if IndexOf(Alphabet, c) == -1 then None else Some(IndexOf(Alphabet, c)))
  {
    IndexOfAlphabet(c);
    var r := IndexOf(Alphabet, c);
    if r != -1 {
      SextetCharInjective(r, SextetOf(c).value);
    }
  }

  /**
   * `getByte64(s, i)`: the alphabet position of `s.charAt(i)`; `None` is the
   * thrown "Cannot decode base64". Past the end `charAt` yields "" and
   * `ALPHA.indexOf("")` is 0 (the decoder never asks for such a position).
   */
  function GetByte64(s: string, i: nat): Option<Sextet> {
    if i >= |s| then Some(0) else SextetOf(s[i])
  }

  /** The 24-bit group `a << 18 | b << 12 | c << 6 | d` the source builds per block (the sextets occupy disjoint bits). */
  function Group(a: Sextet, b: Sextet, c: Sextet, d: Sextet): (n: int)
    ensures 0 <= n < 0x100_0000
  {
    a * 0x4_0000 + b * 0x1000 + c * 0x40 + d
  }

  /**
   * The three bytes of a group, computed from neighbouring sextets:
   * `HighByte` is `b10 >> 16`, `MidByte` is `(b10 >> 8) & 0xff` and `LowByte`
   * is `b10 & 0xff` (lemma GroupBytes). The model decodes with these rather
   * than through the 24-bit number, which keeps the proofs small.
   */
  function HighByte(a: Sextet, b: Sextet): Byte { a * 4 + b / 16 }
  function MidByte(b: Sextet, c: Sextet): Byte { (b % 16) * 16 + c / 4 }
  function LowByte(c: Sextet, d: Sextet): Byte { (c % 4) * 64 + d }

  /** `b10 >> 16` is the high byte: `a` and the top two bits of `b`. */
  lemma GroupHigh(a: Sextet, b: Sextet, c: Sextet, d: Sextet)
    ensures Group(a, b, c, d) / 0x1_0000 == HighByte(a, b)
  {
    var rest := (b % 16) * 0x1000 + c * 0x40 + d;
    assert Group(a, b, c, d) == HighByte(a, b) * 0x1_0000 + rest;
    assert 0 <= rest < 0x1_0000;
  }

  /** Quotient and remainder by 256, from a decomposition. */
  lemma DivMod256(n: int, q: int, r: int)
    requires n == q * 0x100 + r && 0 <= r < 0x100
    ensures n / 0x100 == q && n % 0x100 == r
  {
  }

  /** `(b10 >> 8) & 0xff` is the middle byte: the low four bits of `b` and the top four of `c`. */
  lemma GroupMid(a: Sextet, b: Sextet, c: Sextet, d: Sextet)
    ensures Group(a, b, c, d) / 0x100 % 0x100 == MidByte(b, c)
  {
    var bh, bl, ch, cl := b / 16, b % 16, c / 4, c % 4;
    assert b == 16 * bh + bl && 0 <= bl < 16;
    assert c == 4 * ch + cl && 0 <= cl < 4;
    var hi, mid := a * 4 + bh, bl * 16 + ch;
    assert Group(a, b, c, d) == (hi * 0x100 + mid) * 0x100 + (cl * 0x40 + d);
    DivMod256(Group(a, b, c, d), hi * 0x100 + mid, cl * 0x40 + d);
    DivMod256(hi * 0x100 + mid, hi, mid);
  }

  /** `b10 & 0xff` is the low byte: the low two bits of `c` and `d`. */
  lemma GroupLow(a: Sextet, b: Sextet, c: Sextet, d: Sextet)
    ensures Group(a, b, c, d) % 0x100 == LowByte(c, d)
  {
    var ch, cl := c / 4, c % 4;
    assert c == 4 * ch + cl && 0 <= cl < 4;
    var upper := a * 0x400 + b * 0x10 + ch;
    assert Group(a, b, c, d) == upper * 0x100 + (cl * 0x40 + d);
    DivMod256(Group(a, b, c, d), upper, cl * 0x40 + d);
  }

  /** The three bytes of a block, as the source extracts them from the group. */
  lemma GroupBytes(a: Sextet, b: Sextet, c: Sextet, d: Sextet)
    ensures Group(a, b, c, d) / 0x1_0000 == HighByte(a, b)
    ensures Group(a, b, c, d) / 0x100 % 0x100 == MidByte(b, c)
    ensures Group(a, b, c, d) % 0x100 == LowByte(c, d)
  {
    GroupHigh(a, b, c, d);
    GroupMid(a, b, c, d);
    GroupLow(a, b, c, d);
  }

  /** `String.fromCharCode` of a byte: the character with that code. */
  function ByteChar(x: Byte): char { x as char }

  /** The three characters a full block of sextets `a b c d` decodes to. */
  function Chars3(a: Sextet, b: Sextet, c: Sextet, d: Sextet): string {
    [ByteChar(HighByte(a, b)), ByteChar(MidByte(b, c)), ByteChar(LowByte(c, d))]
  }

  /** The two characters of a block `a b c =` (one pad). */
  function Chars2(a: Sextet, b: Sextet, c: Sextet): string {
    [ByteChar(HighByte(a, b)), ByteChar(MidByte(b, c))]
  }

  /** The one character of a block `a b = =` (two pads). */
  function Chars1(a: Sextet, b: Sextet): string {
    [ByteChar(HighByte(a, b))]
  }

  /** Decodes the full block `s[i..i+4]` into three characters. */
  function FullBlock(s: string, i: nat): Option<string>
    requires i + 4 <= |s|
  {
    var a, b, c, d := GetByte64(s, i), GetByte64(s, i + 1), GetByte64(s, i + 2), GetByte64(s, i + 3);
    if a.None? || b.None? || c.None? || d.None? then None
    else Some(Chars3(a.value, b.value, c.value, d.value))
  }

  /** The loop of `base64Decode` over the first `k` blocks, each decoded as a full block. */
  function FullBlocks(s: string, k: nat): Option<string>
    requires 4 * k <= |s|
  {
    if k == 0 then Some([])
    else
      match FullBlocks(s, k - 1)
      case None => None
      case Some(x) =>
        match FullBlock(s, 4 * (k - 1))
        case None => None
        case Some(q) => Some(x + q)
  }

  /** Number of trailing pad characters looked at: `=` last, and `=` before it. */
  function Pads(s: string): nat {
    if |s| >= 1 && s[|s| - 1] == PadChar then
      (if |s| >= 2 && s[|s| - 2] == PadChar then 2 else 1)
    else 0
  }

  /** The `switch (pads)` after the loop: the last block when it carries one or two pads. */
  function PadBlock(s: string, i: nat, pads: nat): Option<string>
    requires pads == 0 || i + 4 <= |s|
  {
    if pads == 1 then
      var a, b, c := GetByte64(s, i), GetByte64(s, i + 1), GetByte64(s, i + 2);
      if a.None? || b.None? || c.None? then None
      else Some(Chars2(a.value, b.value, c.value))
    else if pads == 2 then
      var a, b := GetByte64(s, i), GetByte64(s, i + 1);
      if a.None? || b.None? then None
      else Some(Chars1(a.value, b.value))
    else Some([])
  }

  /** The number of blocks the loop decodes: all of them, or all but the last when it is padded. */
  function LoopBlocks(s: string): (k: nat)
    requires |s| > 0 && |s| % 4 == 0
    ensures 4 * k == (if Pads(s) > 0 then |s| - 4 else |s|)
  {
    if Pads(s) > 0 then |s| / 4 - 1 else |s| / 4
  }

  /** What `base64Decode` returns (`None` when it throws). */
  function Decode(s: string): Option<string> {
    if |s| == 0 then Some(s)
    else if |s| % 4 != 0 then None
    else
      var k := LoopBlocks(s);
      match FullBlocks(s, k)
      case None => None
      case Some(x) =>
        match PadBlock(s, 4 * k, Pads(s))
        case None => None
        case Some(t) => Some(x + t)
  }

  lemma {:induction false} FullBlocksFailurePersists(s: string, k: nat, m: nat)
    requires k <= m && 4 * m <= |s|
    requires FullBlocks(s, k).None?
    ensures FullBlocks(s, m).None?
    decreases m
  {
    if k < m {
      FullBlocksFailurePersists(s, k, m - 1);
    }
  }

  /** A run of `k` decoded blocks and a decoded block `k` make a run of `k + 1`. */
  lemma FullBlocksStep(s: string, k: nat, x: string, q: string)
    requires 0 < k && 4 * k <= |s|
    requires FullBlocks(s, k - 1) == Some(x) && FullBlock(s, 4 * (k - 1)) == Some(q)
    ensures FullBlocks(s, k) == Some(x + q)
  {
  }

  /** A block that fails to decode makes every run that includes it fail. */
  lemma FullBlocksFailAt(s: string, k: nat, blocks: nat)
    requires k < blocks && 4 * blocks <= |s|
    requires FullBlock(s, 4 * k).None?
    ensures FullBlocks(s, blocks).None?
  {
    assert FullBlocks(s, k + 1).None?;
    FullBlocksFailurePersists(s, k + 1, blocks);
  }

  /** The `for` loop of `base64Decode`: decodes the first `blocks` blocks of `s`, stopping at the first bad character. */
  method DecodeFullBlocks(s: string, blocks: nat) returns (r: Option<string>)
    requires 4 * blocks <= |s|
    ensures r == FullBlocks(s, blocks)
  {
    var imax := 4 * blocks;
    var x: string := [];
    var i := 0;
    ghost var k := 0;
    while i < imax
      invariant i == 4 * k && k <= blocks
      invariant FullBlocks(s, k) == Some(x)
    {
      var q := FullBlock(s, i);
      if q.None? {
        FullBlocksFailAt(s, k, blocks);
        return None;
      }
      FullBlocksStep(s, k + 1, x, q.value);
      x := x + q.value;
      i, k := i + 4, k + 1;
    }
    return Some(x);
  }

  /** `base64Decode`: the length and padding checks, the block loop, then the padded last block. */
  method Base64Decode(s: string) returns (r: Option<string>)
    ensures r == Decode(s)
  {
    var imax := |s|;
    if imax == 0 {
      return Some(s);
    }
    if imax % 4 != 0 {
      return None;
    }
    var pads := 0;
    if s[imax - 1] == PadChar {
      pads := 1;
      if s[imax - 2] == PadChar {
        pads := 2;
      }
      imax := imax - 4;
    }
    assert pads == Pads(s) && imax == 4 * LoopBlocks(s);
    var x := DecodeFullBlocks(s, imax / 4);
    if x.None? {
      return None;
    }
    var t := PadBlock(s, imax, pads);
    if t.None? {
      return None;
    }
    return Some(x.value + t.value);
  }
}
