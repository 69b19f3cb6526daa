// The 64-bit metric hash of the express metric generator: the first eight
// bytes of a SHA-256 digest folded into one unsigned 64-bit word, byte 0 as
// the least significant byte. SHA-256 itself is a foreign call, so the digest
// is an input of the model.
module ExpressHash {

  /** A value of an unsigned char. */
  type Byte = b: int | 0 <= b < 256

  /** A SHA-256 digest: SHA256_DIGEST_LENGTH (32) bytes. */
  type Digest = d: seq<Byte> | |d| == 32 witness seq(32, _ => 0)

  const TwoTo63: int := 0x8000_0000_0000_0000
  const TwoTo64: int := 0x1_0000_0000_0000_0000

  /** 256^k, the weight of byte k of a little-endian word. */
  function Pow256(k: nat): (p: nat)
    ensures p >= 1
  {
    if k == 0 then 1 else 256 * Pow256(k - 1)
  }

  /** The little-endian value of the first n bytes of d: the sum of d[k] * 256^k. */
  function LittleEndian(d: seq<Byte>, n: nat): (v: nat)
    requires n <= |d|
    ensures v < Pow256(n)
  {
    if n == 0 then 0
    else
      ByteTimesWeight(d[n - 1], Pow256(n - 1));
      LittleEndian(d, n - 1) + d[n - 1] * Pow256(n - 1)
  }

  /** A byte times a weight stays below 256 times that weight. */
  lemma ByteTimesWeight(b: Byte, p: nat)
    ensures 0 <= b * p <= 255 * p
  {
  }

  /** The n bytes of v, least significant first: the inverse of LittleEndian. */
  function LittleEndianBytes(v: nat, n: nat): (bs: seq<Byte>)
    ensures |bs| == n
  {
    if n == 0 then [] else [v % 256] + LittleEndianBytes(v / 256, n - 1)
  }

  /** Reading the first n bytes as a number from the most significant end:
      peeling the least significant byte off leaves the value of the bytes above. */
  lemma {:induction false} LittleEndianShift(d: seq<Byte>, n: nat)
    requires 1 <= n <= |d|
    ensures LittleEndian(d, n) % 256 == d[0]
    ensures LittleEndian(d, n) / 256 == LittleEndian(d[1..], n - 1)
  {
    if n == 1 {
      assert LittleEndian(d, 1) == d[0];
    } else {
      LittleEndianShift(d, n - 1);
      var low := LittleEndian(d, n - 1);
      var top := d[n - 1] * Pow256(n - 2);
      ByteTimesWeight(d[n - 1], Pow256(n - 2));
      ScaleWeight(d[n - 1], Pow256(n - 2));
      assert LittleEndian(d, n) == low + 256 * top;
      assert d[1..][n - 2] == d[n - 1];
      assert LittleEndian(d[1..], n - 1) == LittleEndian(d[1..], n - 2) + top;
      DivModAddMultiple(low, top);
    }
  }

  /** Moving the factor 256 of the next weight out of a byte's term. */
  lemma ScaleWeight(b: Byte, q: nat)
    ensures b * (256 * q) == 256 * (b * q)
  {
  }

  /** Adding a multiple of 256 does not change the low byte and adds to the quotient. */
  lemma DivModAddMultiple(a: nat, k: nat)
    ensures (a + 256 * k) % 256 == a % 256
    ensures (a + 256 * k) / 256 == a / 256 + k
  {
  }

  /** Round trip: the bytes of the little-endian value are the bytes read. */
  lemma {:induction false} LittleEndianRoundTrip(d: seq<Byte>, n: nat)
    requires n <= |d|
    ensures LittleEndianBytes(LittleEndian(d, n), n) == d[..n]
  {
    if n > 0 {
      LittleEndianShift(d, n);
      LittleEndianRoundTrip(d[1..], n - 1);
      assert d[1..][..n - 1] == d[1..n];
      assert d[..n] == [d[0]] + d[1..n];
    }
  }

  /** Two byte strings with the same little-endian value agree on those bytes. */
  lemma LittleEndianInjective(d: seq<Byte>, e: seq<Byte>, n: nat)
    requires n <= |d| && n <= |e|
    requires LittleEndian(d, n) == LittleEndian(e, n)
    ensures d[..n] == e[..n]
  {
    LittleEndianRoundTrip(d, n);
    LittleEndianRoundTrip(e, n);
  }

  /** Bit offset 8k of byte k in a 64-bit word. */
  function ByteShift(k: nat): (s: bv7)
    requires k < 8
  {
    if k == 0 then 0 else if k == 1 then 8 else if k == 2 then 16 else if k == 3 then 24
    else if k == 4 then 32 else if k == 5 then 40 else if k == 6 then 48 else 56
  }

  /** Byte b placed at bit s of a word with no bit set at s or above. */
  lemma OrIsAdd(x: bv64, b: bv8, s: bv7)
    requires s == 8 || s == 16 || s == 24 || s == 32 || s == 40 || s == 48
    requires x >> s == 0
    ensures x | ((b as bv64) << s) == x + ((b as bv64) << s)
    ensures (x | ((b as bv64) << s)) >> (s + 8) == 0
  {
  }

  /** The same for the top byte, which fills the word. */
  lemma OrIsAddTop(x: bv64, b: bv8)
    requires x >> 56 == 0
    ensures x | ((b as bv64) << 56) == x + ((b as bv64) << 56)
  {
  }

  /** One step of the hash64 loop on 64-bit words: when the bits accumulated so far
      lie below bit 8k, OR-ing byte k in at bit 8k is the same as adding it, and the
      accumulated bits then lie below bit 8(k + 1). This is why the loop below may
      add digest[k] * 256^k where the C++ code ORs. */
  lemma DisjointOrIsAdd(x: bv64, b: bv8, k: nat)
    requires 1 <= k < 8
    requires x >> ByteShift(k) == 0
    ensures x | ((b as bv64) << ByteShift(k)) == x + ((b as bv64) << ByteShift(k))
    ensures k + 1 < 8 ==> (x | ((b as bv64) << ByteShift(k))) >> ByteShift(k + 1) == 0
  {
    if k == 1 { OrIsAdd(x, b, 8); }
    else if k == 2 { OrIsAdd(x, b, 16); }
    else if k == 3 { OrIsAdd(x, b, 24); }
    else if k == 4 { OrIsAdd(x, b, 32); }
    else if k == 5 { OrIsAdd(x, b, 40); }
    else if k == 6 { OrIsAdd(x, b, 48); }
    else { OrIsAddTop(x, b); }
  }

  /** hash64 of utils.cpp (and its textual copy in log.cpp), the SHA-256 call left out:
      result starts as digest[0], then each byte i = 1..7 is OR-ed in at bit 8i.
      The bytes land on disjoint bit ranges, so each OR adds digest[i] * 256^i. */
  method Hash64(digest: Digest) returns (r: nat)
    ensures r == LittleEndian(digest, 8)
    ensures r < TwoTo64
  {
    var result: nat := digest[0];
    assert LittleEndian(digest, 1) == digest[0];
    for i := 1 to 8
      invariant result == LittleEndian(digest, i)
    {
      result := result + digest[i] * Pow256(i);
    }
    r := result;
    assert Pow256(8) == TwoTo64;
  }

  /** The value of eight bytes fits a 64-bit word. */
  lemma WordFits(d: Digest)
    ensures LittleEndian(d, 8) < TwoTo64
  {
    assert Pow256(8) == TwoTo64;
  }

  /** The unsigned 64-bit hash read back as the int64_t the catalog stores:
      two's complement reinterpretation of the same 64 bits. */
  function ToInt64(u: nat): (s: int)
    requires u < TwoTo64
    ensures -TwoTo63 <= s < TwoTo63
    ensures s % TwoTo64 == u
  {
    if u < TwoTo63 then u else u - TwoTo64
  }

  /** The signed reading loses nothing: distinct hashes stay distinct. */
  lemma ToInt64Injective(u: nat, v: nat)
    requires u < TwoTo64 && v < TwoTo64
    requires ToInt64(u) == ToInt64(v)
    ensures u == v
  {
  }

  /** The signed hash of a digest depends on exactly its first eight bytes. */
  lemma SignedHashDeterminesPrefix(d1: Digest, d2: Digest)
    ensures ToInt64(LittleEndian(d1, 8)) == ToInt64(LittleEndian(d2, 8)) <==> d1[..8] == d2[..8]
  {
    assert Pow256(8) == TwoTo64;
    if ToInt64(LittleEndian(d1, 8)) == ToInt64(LittleEndian(d2, 8)) {
      ToInt64Injective(LittleEndian(d1, 8), LittleEndian(d2, 8));
      LittleEndianInjective(d1, d2, 8);
    }
    if d1[..8] == d2[..8] {
      LittleEndianPrefix(d1, d2, 8);
    }
  }

  /** The value of the first n bytes depends on those bytes only. */
  lemma {:induction false} LittleEndianPrefix(d: seq<Byte>, e: seq<Byte>, n: nat)
    requires n <= |d| && n <= |e|
    requires d[..n] == e[..n]
    ensures LittleEndian(d, n) == LittleEndian(e, n)
  {
    if n > 0 {
      assert d[..n - 1] == d[..n][..n - 1] == e[..n][..n - 1] == e[..n - 1];
      assert d[n - 1] == d[..n][n - 1] == e[..n][n - 1] == e[n - 1];
      LittleEndianPrefix(d, e, n - 1);
    }
  }
}
