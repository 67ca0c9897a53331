/**
 * What `base64Decode` accepts and what it produces: the rejection conditions,
 * the output length, the character range and the bytes of each block.
 */
module Base64Properties {
  import opened Wrappers
  import opened Base64

  /** Every character code is a byte. */
  predicate IsByteString(x: string) {
    forall j :: 0 <= j < |x| ==> x[j] as int < 256
  }

  /** A block decodes exactly when its four characters are in the alphabet, to three byte characters. */
  lemma FullBlockAccepts(s: string, i: nat)
    requires i + 4 <= |s|
    ensures FullBlock(s, i).Some? <==>
      IsAlphabetChar(s[i]) && IsAlphabetChar(s[i + 1]) && IsAlphabetChar(s[i + 2]) && IsAlphabetChar(s[i + 3])
    ensures FullBlock(s, i).Some? ==> |FullBlock(s, i).value| == 3 && IsByteString(FullBlock(s, i).value)
  {
  }

  /** The first `k` blocks decode exactly when their characters are all in the alphabet. */
  lemma {:induction false} FullBlocksAccepts(s: string, k: nat)
    requires 4 * k <= |s|
    ensures FullBlocks(s, k).Some? <==> forall j :: 0 <= j < 4 * k ==> IsAlphabetChar(s[j])
  {
    if k > 0 {
      var i := 4 * (k - 1);
      FullBlocksAccepts(s, k - 1);
      FullBlockAccepts(s, i);
      assert FullBlocks(s, k).Some? <==> FullBlocks(s, k - 1).Some? && FullBlock(s, i).Some?;
      if forall j :: 0 <= j < 4 * k ==> IsAlphabetChar(s[j]) {
        assert IsAlphabetChar(s[i]) && IsAlphabetChar(s[i + 1]) && IsAlphabetChar(s[i + 2]) && IsAlphabetChar(s[i + 3]);
      }
    }
  }

  /** Concatenated byte strings are byte strings. */
  lemma ByteStringAppend(x: string, q: string)
    requires IsByteString(x) && IsByteString(q)
    ensures IsByteString(x + q)
  {
  }

  /** A decoded prefix holds only byte characters. */
  lemma {:induction false} FullBlocksBytes(s: string, k: nat)
    requires 4 * k <= |s| && FullBlocks(s, k).Some?
    ensures IsByteString(FullBlocks(s, k).value)
  {
    if k > 0 {
      assert FullBlocks(s, k - 1).Some?;
      var x := FullBlocks(s, k - 1).value;
      var q := FullBlock(s, 4 * (k - 1)).value;
      FullBlocksBytes(s, k - 1);
      FullBlockAccepts(s, 4 * (k - 1));
      FullBlocksStep(s, k, x, q);
      ByteStringAppend(x, q);
    }
  }

  /** A decoded prefix of `k` blocks has three characters per block. */
  lemma {:induction false} FullBlocksLength(s: string, k: nat)
    requires 4 * k <= |s| && FullBlocks(s, k).Some?
    ensures |FullBlocks(s, k).value| == 3 * k
  {
    if k > 0 {
      FullBlocksLength(s, k - 1);
    }
  }

  /** The first `k` blocks decode exactly when their characters are all in the alphabet, to three characters per block, each a byte. */
  lemma FullBlocksShape(s: string, k: nat)
    requires 4 * k <= |s|
    ensures FullBlocks(s, k).Some? <==> forall j :: 0 <= j < 4 * k ==> IsAlphabetChar(s[j])
    ensures FullBlocks(s, k).Some? ==> |FullBlocks(s, k).value| == 3 * k
    ensures FullBlocks(s, k).Some? ==> IsByteString(FullBlocks(s, k).value)
  {
    FullBlocksAccepts(s, k);
    if FullBlocks(s, k).Some? {
      FullBlocksLength(s, k);
      FullBlocksBytes(s, k);
    }
  }

  /** A slice within the left operand of a concatenation. */
  lemma SliceLeft(x: string, q: string, lo: nat, hi: nat)
    requires lo <= hi <= |x|
    ensures (x + q)[lo..hi] == x[lo..hi]
  {
  }

  /** The right operand of a concatenation, sliced back out. */
  lemma SliceRight(x: string, q: string)
    ensures (x + q)[|x|..|x| + |q|] == q
  {
  }

  /** The last block of a decoded run sits at the run's last three characters. */
  lemma FullBlocksLast(s: string, k: nat)
    requires 0 < k && 4 * k <= |s| && FullBlocks(s, k).Some?
    ensures FullBlock(s, 4 * (k - 1)).Some?
    ensures |FullBlocks(s, k).value| == 3 * k
    ensures FullBlocks(s, k).value[3 * (k - 1)..3 * k] == FullBlock(s, 4 * (k - 1)).value
  {
    assert FullBlocks(s, k - 1).Some? && FullBlock(s, 4 * (k - 1)).Some?;
    var x := FullBlocks(s, k - 1).value;
    var q := FullBlock(s, 4 * (k - 1)).value;
    FullBlocksLength(s, k - 1);
    FullBlockAccepts(s, 4 * (k - 1));
    FullBlocksStep(s, k, x, q);
    SliceRight(x, q);
  }

  /** An earlier block of a decoded run keeps its place when the run grows by one block. */
  lemma FullBlocksPrefix(s: string, k: nat, m: nat)
    requires m + 1 < k && 4 * k <= |s| && FullBlocks(s, k).Some?
    ensures FullBlocks(s, k - 1).Some?
    ensures 3 * m + 3 <= |FullBlocks(s, k - 1).value| && 3 * m + 3 <= |FullBlocks(s, k).value|
    ensures FullBlocks(s, k).value[3 * m..3 * m + 3] == FullBlocks(s, k - 1).value[3 * m..3 * m + 3]
  {
    assert FullBlocks(s, k - 1).Some? && FullBlock(s, 4 * (k - 1)).Some?;
    var x := FullBlocks(s, k - 1).value;
    var q := FullBlock(s, 4 * (k - 1)).value;
    FullBlocksLength(s, k - 1);
    FullBlocksStep(s, k, x, q);
    SliceLeft(x, q, 3 * m, 3 * m + 3);
  }

  /** A decoded prefix holds, at block `m`, the three characters of that block. */
  lemma {:induction false} FullBlocksAt(s: string, k: nat, m: nat)
    requires 4 * k <= |s| && m < k
    requires FullBlocks(s, k).Some?
    ensures FullBlock(s, 4 * m).Some?
    ensures 3 * m + 3 <= |FullBlocks(s, k).value|
    ensures FullBlocks(s, k).value[3 * m..3 * m + 3] == FullBlock(s, 4 * m).value
  {
    if m + 1 == k {
      FullBlocksLast(s, k);
    } else {
      FullBlocksPrefix(s, k, m);
      FullBlocksAt(s, k - 1, m);
    }
  }

  /** `base64Decode("")` is `""`. */
  lemma DecodeEmpty()
    ensures Decode("") == Some("")
  {
  }

  /** A non-empty input whose length is not a multiple of 4 is rejected. */
  lemma DecodeRejectsLength(s: string)
    requires |s| > 0 && |s| % 4 != 0
    ensures Decode(s) == None
  {
  }

  /**
   * A non-empty input of length a multiple of 4 decodes exactly when every
   * character before the trailing pads lies in the alphabet.
   */
  lemma DecodeAccepts(s: string)
    ensures Decode(s).Some? <==>
      |s| == 0 || (|s| % 4 == 0 && forall j :: 0 <= j < |s| - Pads(s) ==> IsAlphabetChar(s[j]))
  {
    if |s| > 0 && |s| % 4 == 0 {
      var k := LoopBlocks(s);
      FullBlocksShape(s, k);
      PadBlockAccepts(s, 4 * k, Pads(s));
      SplitAlphabetRange(s, 4 * k, |s| - Pads(s));
    }
  }

  /** The block after the loop decodes exactly when its characters before the pads are in the alphabet. */
  lemma PadBlockAccepts(s: string, i: nat, p: nat)
    requires (p == 0 && i == |s|) || (1 <= p <= 2 && i + 4 == |s|)
    ensures PadBlock(s, i, p).Some? <==> forall j :: i <= j < |s| - p ==> IsAlphabetChar(s[j])
  {
    if p == 1 {
      assert |s| - p == i + 3;
    } else if p == 2 {
      assert |s| - p == i + 2;
    }
  }

  /** All characters of `s[..n]` are in the alphabet exactly when those of `s[..m]` and `s[m..n]` are. */
  lemma SplitAlphabetRange(s: string, m: int, n: int)
    requires 0 <= m <= n <= |s|
    ensures (forall j :: 0 <= j < n ==> IsAlphabetChar(s[j])) <==>
      (forall j :: 0 <= j < m ==> IsAlphabetChar(s[j])) && (forall j :: m <= j < n ==> IsAlphabetChar(s[j]))
  {
  }

  /**
   * A character outside `ALPHA` before the trailing pads makes the decoder
   * throw: `=` in the middle, and the URL-safe `-` and `_`, among others.
   */
  lemma DecodeRejectsChar(s: string, j: nat)
    requires j < |s| - Pads(s) && !IsAlphabetChar(s[j])
    ensures Decode(s) == None
  {
    DecodeAccepts(s);
  }

  /**
   * The output has three characters per block, less one per pad:
   * `3n/4`, `3n/4 - 1` or `3n/4 - 2` for an input of length `n`; every
   * character code is a byte.
   */
  lemma DecodeLength(s: string)
    requires Decode(s).Some?
    ensures |Decode(s).value| == 3 * (|s| / 4) - Pads(s)
    ensures forall j :: 0 <= j < |Decode(s).value| ==> Decode(s).value[j] as int < 256
  {
    if |s| > 0 {
      var k := LoopBlocks(s);
      FullBlocksShape(s, k);
    }
  }

  /** A full block `a b c d` decodes to the bytes of `a << 18 | b << 12 | c << 6 | d`, high byte first. */
  lemma FullBlockBytes(s: string, i: nat)
    requires i + 4 <= |s| && FullBlock(s, i).Some?
    ensures var a, b, c, d := SextetOf(s[i]), SextetOf(s[i + 1]), SextetOf(s[i + 2]), SextetOf(s[i + 3]);
      a.Some? && b.Some? && c.Some? && d.Some? && |FullBlock(s, i).value| == 3 &&
      FullBlock(s, i).value[0] as int == Group(a.value, b.value, c.value, d.value) / 0x1_0000 &&
      FullBlock(s, i).value[1] as int == Group(a.value, b.value, c.value, d.value) / 0x100 % 0x100 &&
      FullBlock(s, i).value[2] as int == Group(a.value, b.value, c.value, d.value) % 0x100
  {
    var a, b, c, d := SextetOf(s[i]), SextetOf(s[i + 1]), SextetOf(s[i + 2]), SextetOf(s[i + 3]);
    GroupBytes(a.value, b.value, c.value, d.value);
  }

  /**
   * Each full block `a b c d` of an accepted input decodes to the three bytes
   * of the 24-bit group `a << 18 | b << 12 | c << 6 | d`, high byte first.
   */
  lemma DecodeBlock(s: string, m: nat)
    requires Decode(s).Some?
    requires 4 * m + 4 <= |s| - Pads(s)
    ensures 3 * m + 3 <= |Decode(s).value|
    ensures FullBlock(s, 4 * m).Some? && Decode(s).value[3 * m..3 * m + 3] == FullBlock(s, 4 * m).value
  {
    var k := LoopBlocks(s);
    assert m < k;
    FullBlocksAt(s, k, m);
    var x := FullBlocks(s, k).value;
    var t := PadBlock(s, 4 * k, Pads(s)).value;
    assert Decode(s).value == x + t;
    assert Decode(s).value[3 * m..3 * m + 3] == x[3 * m..3 * m + 3];
  }
}
