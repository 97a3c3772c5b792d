/** Snapshot database keys: big-endian height and format, ordered as byte strings. */
module SnapshotKeys {
  import opened Words
  import opened Lex

  const KEY_PREFIX: Byte := 0x01

  function Pow256(n: nat): nat {
    if n == 0 then 1 else 256 * Pow256(n - 1)
  }

  /** `binary.BigEndian.PutUint` of the low `n` bytes. */
  function BigEndian(v: nat, n: nat): (r: Bytes)
    ensures |r| == n
  {
    if n == 0 then [] else BigEndian(v / 256, n - 1) + [v % 256]
  }

  function FromBigEndian(s: Bytes): nat {
    if s == [] then 0 else 256 * FromBigEndian(s[..|s| - 1]) + s[|s| - 1]
  }

  lemma {:induction false} BigEndianInverse(v: nat, n: nat)
    requires v < Pow256(n)
    ensures FromBigEndian(BigEndian(v, n)) == v
  {
    if n > 0 {
      BigEndianInverse(v / 256, n - 1);
      assert BigEndian(v, n)[..n - 1] == BigEndian(v / 256, n - 1);
    }
  }

  lemma {:induction false} FromBigEndianInverse(s: Bytes)
    ensures FromBigEndian(s) < Pow256(|s|)
    ensures BigEndian(FromBigEndian(s), |s|) == s
  {
    if s != [] {
      FromBigEndianInverse(s[..|s| - 1]);
      var v, hi, lo := FromBigEndian(s), FromBigEndian(s[..|s| - 1]), s[|s| - 1];
      assert v / 256 == hi && v % 256 == lo;
      assert s == s[..|s| - 1] + [lo];
    }
  }

  /** Equally long big-endian numbers compare as byte strings the way they compare as numbers. */
  lemma {:induction false} BigEndianOrder(v: nat, w: nat, n: nat, a: Bytes, b: Bytes)
    requires v < Pow256(n) && w < Pow256(n)
    ensures LexLess(BigEndian(v, n) + a, BigEndian(w, n) + b) <==> v < w || (v == w && LexLess(a, b))
    decreases n
  {
    if n == 0 {
      assert BigEndian(v, n) + a == a && BigEndian(w, n) + b == b;
    } else {
      var a', b' := [v % 256] + a, [w % 256] + b;
      BigEndianOrder(v / 256, w / 256, n - 1, a', b');
      LexLessCons(v % 256, a, w % 256, b);
      assert BigEndian(v, n) + a == BigEndian(v / 256, n - 1) + a';
      assert BigEndian(w, n) + b == BigEndian(w / 256, n - 1) + b';
    }
  }

  lemma {:induction false} Powers()
    ensures Pow256(8) == TWO64 && Pow256(4) == TWO32
  {
    assert Pow256(2) == 0x1_0000;
    assert Pow256(4) == 256 * (256 * Pow256(2));
    assert Pow256(6) == 256 * (256 * Pow256(4));
    assert Pow256(8) == 256 * (256 * Pow256(6));
  }

  function EncodeKey(height: Uint64, format: Uint32): (k: Bytes)
    ensures |k| == 13
  {
    [KEY_PREFIX] + (BigEndian(height, 8) + BigEndian(format, 4))
  }

  function DecodeKey(k: Bytes): Option<(Uint64, Uint32)> {
    if |k| != 13 || k[0] != KEY_PREFIX then None
    else
      FromBigEndianInverse(k[1..9]);
      FromBigEndianInverse(k[9..13]);
      Powers();
      Some((FromBigEndian(k[1..9]), FromBigEndian(k[9..13])))
  }

  /** Decoding inverts encoding, so encoding is injective. */
  lemma {:induction false} KeyRoundTrip(height: Uint64, format: Uint32)
    ensures DecodeKey(EncodeKey(height, format)) == Some((height, format))
  {
    var k := EncodeKey(height, format);
    Powers();
    BigEndianInverse(height, 8);
    BigEndianInverse(format, 4);
    assert k[1..9] == BigEndian(height, 8) && k[9..13] == BigEndian(format, 4);
  }

  /** Every key that decodes is the encoding of what it decodes to. */
  lemma {:induction false} KeyCanonical(k: Bytes)
    requires DecodeKey(k).Some?
    ensures EncodeKey(DecodeKey(k).value.0, DecodeKey(k).value.1) == k
  {
    FromBigEndianInverse(k[1..9]);
    FromBigEndianInverse(k[9..13]);
    assert k == [k[0]] + (k[1..9] + k[9..13]);
  }

  /** Keys are ordered by height and then by format. */
  lemma {:induction false} KeyOrder(h: Uint64, f: Uint32, h': Uint64, f': Uint32)
    ensures LexLess(EncodeKey(h, f), EncodeKey(h', f')) <==> h < h' || (h == h' && f < f')
  {
    Powers();
    var a, b := BigEndian(f, 4), BigEndian(f', 4);
    assert a + [] == a && b + [] == b;
    BigEndianOrder(f, f', 4, [], []);
    BigEndianOrder(h, h', 8, a, b);
    LexLessCons(KEY_PREFIX, BigEndian(h, 8) + a, KEY_PREFIX, BigEndian(h', 8) + b);
  }
}
