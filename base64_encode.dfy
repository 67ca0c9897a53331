/**
 * A reference Base64 encoder (standard alphabet, `=` padding, section 4 of
 * RFC 4648), written independently of the decoder, and the round trip:
 * `base64Decode` recovers every byte string the encoder produces, one
 * character per byte.
 */
module Base64Reference {
  import opened Wrappers
  import opened Base64

  /** A byte string read as characters, one per byte (what `String.fromCharCode` builds). */
  function Latin1(b: seq<Byte>): (r: string)
    ensures |r| == |b|
  {
    seq(|b|, j requires 0 <= j < |b| => ByteChar(b[j]))
  }

  lemma Latin1Append(b: seq<Byte>, c: seq<Byte>)
    ensures Latin1(b + c) == Latin1(b) + Latin1(c)
  {
  }

  /** The four characters for three bytes. */
  function EncodeBlock(x: Byte, y: Byte, z: Byte): string {
    [SextetChar(x / 4), SextetChar((x % 4) * 16 + y / 16), SextetChar((y % 16) * 4 + z / 64), SextetChar(z % 64)]
  }

  /** The last, padded block for the one or two bytes left over, or nothing. */
  function EncodeTail(t: seq<Byte>): (r: string)
    requires |t| < 3
    ensures |r| == (if |t| == 0 then 0 else 4)
  {
    if |t| == 0 then []
    else if |t| == 1 then [SextetChar(t[0] / 4), SextetChar((t[0] % 4) * 16), PadChar, PadChar]
    else [SextetChar(t[0] / 4), SextetChar((t[0] % 4) * 16 + t[1] / 16), SextetChar((t[1] % 16) * 4), PadChar]
  }

  /** Encodes `b` three bytes at a time, front to back. */
  function Encode(b: seq<Byte>): string
    decreases |b|
  {
    if |b| < 3 then EncodeTail(b)
    else EncodeBlock(b[0], b[1], b[2]) + Encode(b[3..])
  }

  /**
   * For `n` full triples and a short rest: four characters per triple, then
   * the padded block for the rest (four characters more unless it is empty).
   */
  lemma {:induction false} EncodeShape(b: seq<Byte>, n: nat)
    requires 3 * n <= |b| < 3 * n + 3
    ensures |Encode(b)| == 4 * n + (if |b| == 3 * n then 0 else 4)
    ensures Encode(b)[4 * n..] == EncodeTail(b[3 * n..])
  {
    if n > 0 {
      EncodeShape(b[3..], n - 1);
      assert b[3..][3 * (n - 1)..] == b[3 * n..];
    }
  }

  /** The encoding has four characters for each full triple. */
  lemma {:induction false} EncodeCovers(b: seq<Byte>, k: nat)
    requires 3 * k <= |b|
    ensures 4 * k <= |Encode(b)|
  {
    if k > 0 {
      EncodeCovers(b[3..], k - 1);
    }
  }

  /** The `m`-th full block of the encoding is the encoding of the `m`-th byte triple. */
  lemma {:induction false} EncodeAt(b: seq<Byte>, m: nat)
    requires 3 * m + 3 <= |b|
    ensures 4 * m + 4 <= |Encode(b)|
    ensures Encode(b)[4 * m..4 * m + 4] == EncodeBlock(b[3 * m], b[3 * m + 1], b[3 * m + 2])
  {
    var e := EncodeBlock(b[0], b[1], b[2]);
    var rest := Encode(b[3..]);
    assert Encode(b) == e + rest;
    if m > 0 {
      EncodeAt(b[3..], m - 1);
      assert (e + rest)[4 * m..4 * m + 4] == rest[4 * (m - 1)..4 * (m - 1) + 4];
    } else {
      assert (e + rest)[0..4] == e;
    }
  }

  /** Every character of the encoding is in the alphabet or is `=`; in particular it never contains `.`. */
  lemma {:induction false} EncodeChars(b: seq<Byte>)
    ensures forall j :: 0 <= j < |Encode(b)| ==> IsAlphabetChar(Encode(b)[j]) || Encode(b)[j] == PadChar
    decreases |b|
  {
    if |b| >= 3 {
      EncodeChars(b[3..]);
      var e := EncodeBlock(b[0], b[1], b[2]);
      forall j | 0 <= j < |Encode(b)|
        ensures IsAlphabetChar(Encode(b)[j]) || Encode(b)[j] == PadChar
      {
        if j >= 4 {
          assert Encode(b)[j] == Encode(b[3..])[j - 4];
        }
      }
    }
  }

  /** A sextet's character decodes back to the sextet. */
  lemma SextetRoundTrip(v: Sextet)
    ensures SextetOf(SextetChar(v)) == Some(v)
  {
  }

  /** Splitting three bytes into sextets and joining them again gives the bytes back. */
  lemma BytesRoundTrip(x: Byte, y: Byte, z: Byte)
    ensures HighByte(x / 4, (x % 4) * 16 + y / 16) == x
    ensures MidByte((x % 4) * 16 + y / 16, (y % 16) * 4 + z / 64) == y
    ensures LowByte((y % 16) * 4 + z / 64, z % 64) == z
  {
  }

  /** Decoding the block for three bytes gives those bytes as characters. */
  lemma BlockRoundTrip(s: string, i: nat, x: Byte, y: Byte, z: Byte)
    requires i + 4 <= |s| && s[i..i + 4] == EncodeBlock(x, y, z)
    ensures FullBlock(s, i) == Some(Latin1([x, y, z]))
  {
    assert s[i] == EncodeBlock(x, y, z)[0];
    assert s[i + 1] == EncodeBlock(x, y, z)[1];
    assert s[i + 2] == EncodeBlock(x, y, z)[2];
    assert s[i + 3] == EncodeBlock(x, y, z)[3];
    SextetRoundTrip(x / 4);
    SextetRoundTrip((x % 4) * 16 + y / 16);
    SextetRoundTrip((y % 16) * 4 + z / 64);
    SextetRoundTrip(z % 64);
    BytesRoundTrip(x, y, z);
    assert FullBlock(s, i) == Some(Chars3(x / 4, (x % 4) * 16 + y / 16, (y % 16) * 4 + z / 64, z % 64));
    assert Chars3(x / 4, (x % 4) * 16 + y / 16, (y % 16) * 4 + z / 64, z % 64) == [ByteChar(x), ByteChar(y), ByteChar(z)];
    assert Latin1([x, y, z]) == [ByteChar(x), ByteChar(y), ByteChar(z)];
  }

  /** The triple of bytes at block `m`. */
  function Triple(b: seq<Byte>, m: nat): seq<Byte>
    requires 3 * m + 3 <= |b|
  {
    [b[3 * m], b[3 * m + 1], b[3 * m + 2]]
  }

  /** Each of the first `k` full blocks of `s` decodes to the matching byte triple of `b`. */
  ghost predicate DecodesBlocks(s: string, b: seq<Byte>, k: nat)
    requires 3 * k <= |b| && 4 * k <= |s|
  {
    k == 0 || (DecodesBlocks(s, b, k - 1) && FullBlock(s, 4 * (k - 1)) == Some(Latin1(Triple(b, k - 1))))
  }

  /** `s` holds, as its first `k` full blocks, the encodings of the first `k` byte triples of `b`. */
  ghost predicate EncodesBlocks(s: string, b: seq<Byte>, k: nat)
    requires 3 * k <= |b| && 4 * k <= |s|
  {
    k == 0 || (EncodesBlocks(s, b, k - 1) && s[4 * (k - 1)..4 * k] == EncodeBlock(b[3 * (k - 1)], b[3 * (k - 1) + 1], b[3 * (k - 1) + 2]))
  }

  lemma {:induction false} EncodeEncodesBlocks(b: seq<Byte>, k: nat)
    requires 3 * k <= |b|
    ensures 4 * k <= |Encode(b)| && EncodesBlocks(Encode(b), b, k)
  {
    EncodeCovers(b, k);
    if k > 0 {
      EncodeEncodesBlocks(b, k - 1);
      EncodeAt(b, k - 1);
    }
  }

  lemma {:induction false} EncodedBlocksDecode(s: string, b: seq<Byte>, k: nat)
    requires 3 * k <= |b| && 4 * k <= |s|
    requires EncodesBlocks(s, b, k)
    ensures DecodesBlocks(s, b, k)
  {
    if k > 0 {
      EncodedBlocksDecode(s, b, k - 1);
      BlockRoundTrip(s, 4 * (k - 1), b[3 * (k - 1)], b[3 * (k - 1) + 1], b[3 * (k - 1) + 2]);
    }
  }

  lemma PrefixTriple(b: seq<Byte>, m: nat)
    requires 3 * m + 3 <= |b|
    ensures b[..3 * m + 3] == b[..3 * m] + [b[3 * m], b[3 * m + 1], b[3 * m + 2]]
  {
  }

  /** The decoding loop over the first `k` full blocks of an encoding recovers the first `3k` bytes. */
  lemma {:induction false} FullBlocksRoundTrip(s: string, b: seq<Byte>, k: nat)
    requires 3 * k <= |b| && 4 * k <= |s|
    requires DecodesBlocks(s, b, k)
    ensures FullBlocks(s, k) == Some(Latin1(b[..3 * k]))
  {
    if k > 0 {
      var m := k - 1;
      FullBlocksRoundTrip(s, b, m);
      var triple := Triple(b, m);
      FullBlocksStep(s, k, Latin1(b[..3 * m]), Latin1(triple));
      PrefixTriple(b, m);
      Latin1Append(b[..3 * m], triple);
    } else {
      assert Latin1(b[..0]) == [];
    }
  }

  /** Decoding the padded tail block for one or two leftover bytes gives those bytes; the block carries `3 - |t|` pads. */
  lemma TailRoundTrip(s: string, i: nat, t: seq<Byte>)
    requires 1 <= |t| <= 2 && i + 4 == |s| && s[i..] == EncodeTail(t)
    ensures Pads(s) == 3 - |t|
    ensures PadBlock(s, i, 3 - |t|) == Some(Latin1(t))
  {
    var x := t[0];
    assert s[i] == SextetChar(x / 4);
    SextetRoundTrip(x / 4);
    if |t| == 1 {
      assert s[i + 1] == SextetChar((x % 4) * 16) && s[i + 2] == PadChar && s[i + 3] == PadChar;
      SextetRoundTrip((x % 4) * 16);
      assert HighByte(x / 4, (x % 4) * 16) == x;
      assert Latin1(t) == [ByteChar(x)];
    } else {
      var y := t[1];
      assert s[i + 1] == SextetChar((x % 4) * 16 + y / 16) && s[i + 2] == SextetChar((y % 16) * 4) && s[i + 3] == PadChar;
      SextetRoundTrip((x % 4) * 16 + y / 16);
      SextetRoundTrip((y % 16) * 4);
      BytesRoundTrip(x, y, 0);
      assert Latin1(t) == [ByteChar(x), ByteChar(y)];
    }
  }

  /** A length of `4m` passes the length check. */
  lemma MultipleOfFour(n: nat, m: nat)
    requires n == 4 * m
    ensures n % 4 == 0
  {
  }

  /** `Decode` of a well-shaped input is the decoded full blocks followed by the decoded last block. */
  lemma DecodeParts(s: string, k: nat, x: string, t: string)
    requires |s| > 0 && |s| == 4 * k + (if Pads(s) > 0 then 4 else 0)
    requires FullBlocks(s, k) == Some(x) && PadBlock(s, 4 * k, Pads(s)) == Some(t)
    ensures Decode(s) == Some(x + t)
  {
    var m := if Pads(s) > 0 then k + 1 else k;
    MultipleOfFour(|s|, m);
    assert 4 * LoopBlocks(s) == 4 * k;
  }

  /** Decoding any string laid out as the encoder lays out `b`: `n` full blocks, then the padded tail. */
  lemma DecodeEncoded(s: string, b: seq<Byte>, n: nat)
    requires 0 < |b| && 3 * n <= |b| < 3 * n + 3
    requires |s| == 4 * n + (if |b| == 3 * n then 0 else 4)
    requires EncodesBlocks(s, b, n)
    requires s[4 * n..] == EncodeTail(b[3 * n..])
    ensures Decode(s) == Some(Latin1(b))
  {
    EncodedBlocksDecode(s, b, n);
    FullBlocksRoundTrip(s, b, n);
    var t := b[3 * n..];
    if |t| == 0 {
      assert s[|s| - 1] == s[4 * (n - 1)..4 * n][3];
      assert b[..3 * n] == b;
      DecodeParts(s, n, Latin1(b), []);
      assert Latin1(b) + [] == Latin1(b);
    } else {
      TailRoundTrip(s, 4 * n, t);
      assert b == b[..3 * n] + t;
      Latin1Append(b[..3 * n], t);
      DecodeParts(s, n, Latin1(b[..3 * n]), Latin1(t));
    }
  }

  /** `base64Decode` inverts the encoder: it returns the encoded bytes, one character each. */
  lemma RoundTrip(b: seq<Byte>)
    ensures Decode(Encode(b)) == Some(Latin1(b))
  {
    if |b| > 0 {
      var n := |b| / 3;
      EncodeShape(b, n);
      EncodeEncodesBlocks(b, n);
      DecodeEncoded(Encode(b), b, n);
    } else {
      assert Latin1(b) == [];
    }
  }
}
