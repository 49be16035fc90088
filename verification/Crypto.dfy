/** crypto/crypto.go: CBC decryption with padding over an abstract block cipher,
    and the key-stretching loop over an abstract hash. */
module Crypto {
  import opened Buffers

  const BLOCK_SIZE := 16

  type Block = b: Bytes | |b| == BLOCK_SIZE witness Zeros(16)

  /** AES under one key, as a pair of functions on 16-byte blocks. */
  datatype Cipher = Cipher(encrypt: Block -> Block, decrypt: Block -> Block)

  ghost predicate Permutation(c: Cipher) {
    forall b: Block :: c.decrypt(c.encrypt(b)) == b && c.encrypt(c.decrypt(b)) == b
  }

  // ---------- Exclusive or ----------

  function Pow2(k: nat): nat {
    if k == 0 then 1 else 2 * Pow2(k - 1)
  }

  function XorBits(a: nat, b: nat, k: nat): (r: nat)
    ensures r < Pow2(k)
  {
    if k == 0 then 0 else 2 * XorBits(a / 2, b / 2, k - 1) + (a + b) % 2
  }

  /** One bit: the sum is split again, and adding b a second time gives a's bit back. */
  lemma XorBit(y: nat, a: nat, b: nat)
    ensures (2 * y + (a + b) % 2) / 2 == y
    ensures (2 * y + (a + b) % 2 + b) % 2 == a % 2
  {
  }

  lemma {:induction false} XorBitsInvolutive(a: nat, b: nat, k: nat)
    requires a < Pow2(k)
    ensures XorBits(XorBits(a, b, k), b, k) == a
  {
    if k > 0 {
      XorBit(XorBits(a / 2, b / 2, k - 1), a, b);
      XorBitsInvolutive(a / 2, b / 2, k - 1);
    }
  }

  function XorByte(a: byte, b: byte): byte {
    assert Pow2(8) == 256;
    XorBits(a, b, 8)
  }

  /** Bit k, counted from the low end. */
  function Bit(v: nat, k: nat): nat {
    if k == 0 then v % 2 else Bit(v / 2, k - 1)
  }

  lemma {:induction false} XorBitsAt(a: nat, b: nat, n: nat, k: nat)
    requires k < n
    ensures Bit(XorBits(a, b, n), k) == (Bit(a, k) + Bit(b, k)) % 2
  {
    XorBit(XorBits(a / 2, b / 2, n - 1), a, b);
    LowBit(XorBits(a / 2, b / 2, n - 1), a + b);
    if k > 0 { XorBitsAt(a / 2, b / 2, n - 1, k - 1); }
  }

  lemma LowBit(y: nat, z: nat)
    ensures (2 * y + z % 2) % 2 == z % 2
  {
  }

  /** Every bit of the result is set exactly where one of the two bits is. */
  lemma XorIsBitwise(a: byte, b: byte, k: nat)
    requires k < 8
    ensures Bit(XorByte(a, b), k) == (Bit(a, k) + Bit(b, k)) % 2
  {
    XorBitsAt(a, b, 8, k);
  }

  lemma XorExample()
    ensures Xor(Zeros(15) + [5], Zeros(15) + [3]) == Zeros(15) + [6]
  {
    assert XorBits(0, 0, 5) == 0 && XorBits(5, 3, 8) == 6 && XorBits(0, 0, 8) == 0;
  }

  function Xor(x: Block, y: Block): Block {
    seq(BLOCK_SIZE, i requires 0 <= i < BLOCK_SIZE => XorByte(x[i], y[i]))
  }

  lemma XorInvolutive(x: Block, y: Block)
    ensures Xor(Xor(x, y), y) == x
  {
    assert Pow2(8) == 256;
    forall i | 0 <= i < BLOCK_SIZE
      ensures Xor(Xor(x, y), y)[i] == x[i]
    {
      XorBitsInvolutive(x[i], y[i], 8);
    }
  }

  // ---------- CBC, section 6.2 of NIST SP 800-38A ----------

  function CbcEncrypt(c: Cipher, prev: Block, plain: Bytes): (r: Bytes)
    requires |plain| % BLOCK_SIZE == 0
    ensures |r| == |plain|
    decreases |plain|
  {
    if plain == [] then []
    else
      var b: Block := c.encrypt(Xor(plain[..BLOCK_SIZE], prev));
      b + CbcEncrypt(c, b, plain[BLOCK_SIZE..])
  }

  function CbcDecrypt(c: Cipher, prev: Block, data: Bytes): (r: Bytes)
    requires |data| % BLOCK_SIZE == 0
    ensures |r| == |data|
    decreases |data|
  {
    if data == [] then []
    else
      var b: Block := data[..BLOCK_SIZE];
      Xor(c.decrypt(b), prev) + CbcDecrypt(c, b, data[BLOCK_SIZE..])
  }

  lemma {:induction false} DecryptEncrypt(c: Cipher, prev: Block, plain: Bytes)
    requires Permutation(c) && |plain| % BLOCK_SIZE == 0
    ensures CbcDecrypt(c, prev, CbcEncrypt(c, prev, plain)) == plain
    decreases |plain|
  {
    if plain != [] {
      var p: Block := plain[..BLOCK_SIZE];
      var b: Block := c.encrypt(Xor(p, prev));
      DecryptEncrypt(c, b, plain[BLOCK_SIZE..]);
      XorInvolutive(p, prev);
      var e := CbcEncrypt(c, prev, plain);
      assert e[..BLOCK_SIZE] == b && e[BLOCK_SIZE..] == CbcEncrypt(c, b, plain[BLOCK_SIZE..]);
      assert plain == p + plain[BLOCK_SIZE..];
    }
  }

  lemma {:induction false} EncryptDecrypt(c: Cipher, prev: Block, data: Bytes)
    requires Permutation(c) && |data| % BLOCK_SIZE == 0
    ensures CbcEncrypt(c, prev, CbcDecrypt(c, prev, data)) == data
    decreases |data|
  {
    if data != [] {
      var b: Block := data[..BLOCK_SIZE];
      EncryptDecrypt(c, b, data[BLOCK_SIZE..]);
      XorInvolutive(c.decrypt(b), prev);
      var d := CbcDecrypt(c, prev, data);
      assert d[..BLOCK_SIZE] == Xor(c.decrypt(b), prev) && d[BLOCK_SIZE..] == CbcDecrypt(c, b, data[BLOCK_SIZE..]);
      assert data == b + data[BLOCK_SIZE..];
    }
  }

  // ---------- Padding, section 6.3 of RFC 5652 ----------

  function Repeat(v: byte, n: nat): Bytes {
    seq(n, _ => v)
  }

  function Pad(x: Bytes): (r: Bytes)
    ensures |r| % BLOCK_SIZE == 0 && |r| > 0
  {
    var n := BLOCK_SIZE - |x| % BLOCK_SIZE;
    x + Repeat(n, n)
  }

  /** The last p bytes all hold p, for a p between 1 and 16. */
  function Unpad(data: Bytes): Option<Bytes>
    requires |data| >= BLOCK_SIZE
  {
    var n, p := |data|, data[|data| - 1];
    if 1 <= p <= BLOCK_SIZE && data[n - p..] == Repeat(p, p) then Some(data[..n - p]) else None
  }

  lemma UnpadExact(data: Bytes, x: Bytes)
    requires |data| % BLOCK_SIZE == 0 && |data| > 0
    ensures Unpad(data) == Some(x) <==> data == Pad(x)
  {
    var n, p := |data|, data[|data| - 1];
    if Unpad(data) == Some(x) {
      assert data == data[..n - p] + data[n - p..];
      assert |x| % BLOCK_SIZE == (BLOCK_SIZE - p) % BLOCK_SIZE;
    }
    if data == Pad(x) {
      var k: byte := BLOCK_SIZE - |x| % BLOCK_SIZE;
      assert data[n - 1] == Repeat(k, k)[k - 1] == k;
      assert data[n - k..] == Repeat(k, k) && data[..n - k] == x;
    }
  }

  // ---------- Decrypt ----------

  function Encrypted(): Bytes {
    Ascii("encrypted")
  }

  function Decrypted(c: Cipher, iv: Block, data: Bytes): Option<Bytes> {
    var d := TrimPrefix(data, Encrypted());
    if |d| % BLOCK_SIZE != 0 || |d| == 0 then None else Unpad(CbcDecrypt(c, iv, d))
  }

  /** What the decryption leaves in the caller's slice. */
  function Overwritten(c: Cipher, iv: Block, data: Bytes): Bytes {
    var d := TrimPrefix(data, Encrypted());
    if |d| % BLOCK_SIZE != 0 then data else data[..|data| - |d|] + CbcDecrypt(c, iv, d)
  }

  /** CBC encryption of the padded message: what Decrypt is to undo. */
  function Sealed(c: Cipher, iv: Block, x: Bytes): Bytes {
    CbcEncrypt(c, iv, Pad(x))
  }

  /** Decrypt accepts exactly the data whose part after the prefix is a padded
      message under CBC, and returns that one message. */
  lemma DecryptExact(c: Cipher, iv: Block, data: Bytes, x: Bytes)
    requires Permutation(c)
    ensures Decrypted(c, iv, data) == Some(x) <==> TrimPrefix(data, Encrypted()) == Sealed(c, iv, x)
  {
    var d := TrimPrefix(data, Encrypted());
    if |d| % BLOCK_SIZE == 0 && |d| > 0 {
      UnpadExact(CbcDecrypt(c, iv, d), x);
      EncryptDecrypt(c, iv, d);
    }
    DecryptEncrypt(c, iv, Pad(x));
  }

  /** Prefixed ciphertexts always decrypt. Bare ones do unless they happen to begin
      with the prefix; then what is left is no multiple of the block size. */
  lemma DecryptSealed(c: Cipher, iv: Block, x: Bytes)
    requires Permutation(c)
    ensures Decrypted(c, iv, Encrypted() + Sealed(c, iv, x)) == Some(x)
    ensures Decrypted(c, iv, Sealed(c, iv, x)) ==
            if HasPrefix(Sealed(c, iv, x), Encrypted()) then None else Some(x)
  {
    var e := Sealed(c, iv, x);
    assert (Encrypted() + e)[|Encrypted()|..] == e;
    DecryptExact(c, iv, Encrypted() + e, x);
    DecryptExact(c, iv, e, x);
  }

  /** "encrypted". */
  lemma EncryptedBytes()
    ensures Encrypted() == [101, 110, 99, 114, 121, 112, 116, 101, 100]
  {
  }

  /** The caller's slice keeps the prefix and then holds the padded message; data that is no
      multiple of the block size is left alone. */
  lemma OverwrittenIsPadded(c: Cipher, iv: Block, x: Bytes, data: Bytes)
    requires Permutation(c)
    ensures Overwritten(c, iv, Encrypted() + Sealed(c, iv, x)) == Encrypted() + Pad(x)
    ensures |data| % 16 != 0 && !HasPrefix(data, Encrypted()) ==> Overwritten(c, iv, data) == data
  {
    var e := Encrypted() + Sealed(c, iv, x);
    assert e[|Encrypted()|..] == Sealed(c, iv, x) && e[..|Encrypted()|] == Encrypted();
    DecryptEncrypt(c, iv, Pad(x));
  }

  class CryptoState {
    const c: Cipher
    const iv: Block

    constructor (c: Cipher, iv: Block)
      ensures this.c == c && this.iv == iv
    {
      this.c, this.iv := c, iv;
    }

    /** One block of the in-place decryption: a[start:start+16], whose predecessor
        is still ciphertext. */
    method CryptBlock(a: array<byte>, start: nat, prev: Block)
      requires start + BLOCK_SIZE <= a.Length
      modifies a
      ensures a[..start] == old(a[..start])
      ensures a[start..] == Xor(c.decrypt(old(a[start..start + BLOCK_SIZE])), prev) + old(a[start + BLOCK_SIZE..])
    {
      var plain := Xor(c.decrypt(a[start..start + BLOCK_SIZE]), prev);
      ghost var done := a[start + BLOCK_SIZE..];
      forall i | start <= i < start + BLOCK_SIZE {
        a[i] := plain[i - start];
      }
      assert a[start..] == plain + done;
    }

    /** The ciphertext block before offset `end` of the data from `off` on. */
    function Previous(data: Bytes, off: nat, end: nat): Block
      requires off <= end <= |data| && (end == off || end >= off + BLOCK_SIZE)
    {
      if end == off then iv else data[end - BLOCK_SIZE..end]
    }

    lemma CbcFrom(prev: Block, data: Bytes, start: nat)
      requires start + BLOCK_SIZE <= |data| && (|data| - start) % BLOCK_SIZE == 0
      ensures CbcDecrypt(c, prev, data[start..]) ==
              Xor(c.decrypt(data[start..start + BLOCK_SIZE]), prev) +
              CbcDecrypt(c, data[start..start + BLOCK_SIZE], data[start + BLOCK_SIZE..])
    {
      assert data[start..][..BLOCK_SIZE] == data[start..start + BLOCK_SIZE];
      assert data[start..][BLOCK_SIZE..] == data[start + BLOCK_SIZE..];
    }

    /** The bytes before `end` are still those of `was`; the rest is decrypted. */
    ghost predicate DecryptedFrom(a: array<byte>, was: Bytes, off: nat, end: nat)
      reads a
    {
      && off <= end <= a.Length == |was| && (end == off || end >= off + BLOCK_SIZE)
      && (|was| - end) % BLOCK_SIZE == 0
      && a[..end] == was[..end]
      && a[end..] == CbcDecrypt(c, Previous(was, off, end), was[end..])
    }

    method CryptStep(a: array<byte>, off: nat, start: nat, ghost was: Bytes)
      requires off <= start && (start == off || start >= off + BLOCK_SIZE)
      requires DecryptedFrom(a, was, off, start + BLOCK_SIZE)
      modifies a
      ensures DecryptedFrom(a, was, off, start)
    {
      hide CbcDecrypt, Xor;
      ghost var now, end := a[..], start + BLOCK_SIZE;
      SamePart(now, was, end, start, end);
      SamePart(now, was, end, 0, start);
      var prev: Block := iv;
      if start != off {
        prev := a[start - BLOCK_SIZE..start];
        SamePart(now, was, end, start - BLOCK_SIZE, start);
      }
      CryptBlock(a, start, prev);
      CbcFrom(prev, was, start);
    }

    lemma SamePart(x: Bytes, y: Bytes, n: nat, lo: nat, hi: nat)
      requires lo <= hi <= n <= |x| && n <= |y| && x[..n] == y[..n]
      ensures x[lo..hi] == y[lo..hi]
    {
      assert x[lo..hi] == x[..n][lo..hi];
    }

    /** cipher.NewCBCDecrypter(c, iv).CryptBlocks(a[off:], a[off:]): in place, last
        block first. */
    method CryptBlocks(a: array<byte>, off: nat)
      requires off <= a.Length && (a.Length - off) % BLOCK_SIZE == 0
      modifies a
      ensures a[..off] == old(a[..off])
      ensures a[off..] == CbcDecrypt(c, iv, old(a[off..]))
    {
      hide CbcDecrypt;
      ghost var was := a[..];
      var blocks := (a.Length - off) / BLOCK_SIZE;
      assert DecryptedFrom(a, was, off, a.Length) by { NothingLeft(a, was, off); }
      while blocks > 0
        invariant 0 <= blocks && off + BLOCK_SIZE * blocks <= a.Length
        invariant DecryptedFrom(a, was, off, off + BLOCK_SIZE * blocks)
      {
        blocks := blocks - 1;
        CryptStep(a, off, off + BLOCK_SIZE * blocks, was);
      }
    }

    lemma NothingLeft(a: array<byte>, was: Bytes, off: nat)
      requires off <= a.Length && (a.Length - off) % BLOCK_SIZE == 0 && was == a[..]
      ensures DecryptedFrom(a, was, off, a.Length)
    {
      assert was[a.Length..] == [];
    }

    /** The padding scan: from the last byte backwards, p bytes equal to p. */
    method EndsInPadding(data: array<byte>, p: byte) returns (ok: bool)
      requires 1 <= p <= data.Length
      ensures ok <==> data[data.Length - p..] == Repeat(p, p)
    {
      var n := data.Length;
      for i := 0 to p
        invariant forall k :: n - i <= k < n ==> data[k] == p
      {
        if data[n - 1 - i] != p {
          assert data[n - p..][p - 1 - i] != Repeat(p, p)[p - 1 - i];
          return false;
        }
      }
      ok := true;
    }

    /** The unpadding of data[off:]. */
    method RemovePadding(data: array<byte>, off: nat) returns (r: Option<Bytes>)
      requires off + BLOCK_SIZE <= data.Length
      ensures r == Unpad(data[off..])
    {
      ghost var m := data[off..];
      var n := data.Length;
      var p := data[n - 1];
      assert m[|m| - 1] == p;
      if p == 0 || p > BLOCK_SIZE { return None; }
      var padded := EndsInPadding(data, p);
      assert data[n - p..] == m[|m| - p..];
      if !padded { return None; }
      assert data[off..n - p] == m[..|m| - p];
      r := Some(data[off..n - p]);
    }

    method Decrypt(data: array<byte>) returns (r: Option<Bytes>)
      modifies data
      ensures r == Decrypted(c, iv, old(data[..]))
      ensures data[..] == Overwritten(c, iv, old(data[..]))
    {
      hide CbcDecrypt, Ascii, Unpad;
      ghost var d := TrimPrefix(data[..], Encrypted());
      var off := if HasPrefix(data[..], Encrypted()) then |Encrypted()| else 0;
      assert d == data[off..];
      if (data.Length - off) % BLOCK_SIZE != 0 { return None; }
      if data.Length - off == 0 {
        assert CbcDecrypt(c, iv, d) == [];
        return None;
      }
      CryptBlocks(data, off);
      assert data[..] == data[..off] + data[off..];
      r := RemovePadding(data, off);
    }
  }

  // ---------- bytesToKey ----------

  /** A hash of fixed positive output size. */
  datatype Hash = Hash(size: nat, digest: Bytes -> Bytes)

  ghost predicate ValidHash(h: Hash) {
    h.size > 0 && forall b: Bytes :: |h.digest(b)| == h.size
  }

  /** hash.Hash: collects what is written; Sum(sum[:0]) overwrites `sum`. */
  class Hasher {
    const h: Hash
    var written: Bytes

    constructor (h: Hash)
      ensures this.h == h && written == []
    {
      this.h, written := h, [];
    }

    method Reset()
      modifies this
      ensures written == []
    {
      written := [];
    }

    method Write(b: Bytes)
      modifies this
      ensures written == old(written) + b
    {
      written := written + b;
    }

    method Sum(sum: array<byte>)
      requires ValidHash(h) && sum.Length == h.size
      modifies sum
      ensures sum[..] == h.digest(written)
    {
      var d := h.digest(written);
      forall i | 0 <= i < sum.Length {
        sum[i] := d[i];
      }
    }
  }

  function Iterate(h: Hash, n: nat, b: Bytes): Bytes {
    if n == 0 then b else h.digest(Iterate(h, n - 1, b))
  }

  /** How often each D_i is hashed. */
  function Rounds(iter: int): nat {
    if iter < 1 then 1 else iter
  }

  /** D_i = H^rounds(D_(i-1) || data || salt), with D_0 empty. */
  function D(h: Hash, salt: Bytes, data: Bytes, iter: int, i: nat): Bytes {
    if i == 0 then [] else Iterate(h, Rounds(iter), D(h, salt, data, iter, i - 1) + data + salt)
  }

  lemma OneRound(h: Hash, b: Bytes)
    ensures Iterate(h, 1, b) == h.digest(b)
  {
  }

  /** Written out: the hash of data and salt, hashed again as often as asked for but never
      less than once; then the same behind what came before. */
  lemma FirstBlocks(h: Hash, salt: Bytes, data: Bytes, iter: int)
    ensures iter <= 1 ==> D(h, salt, data, iter, 1) == h.digest(data + salt)
    ensures D(h, salt, data, 3, 1) == h.digest(h.digest(h.digest(data + salt)))
    ensures D(h, salt, data, 1, 2) == h.digest(h.digest(data + salt) + data + salt)
    ensures KeyStream(h, salt, data, iter, 2) == D(h, salt, data, iter, 1) + D(h, salt, data, iter, 2)
  {
    assert [] + data + salt == data + salt;
    assert [] + D(h, salt, data, iter, 1) == D(h, salt, data, iter, 1);
    OneRound(h, data + salt);
    OneRound(h, h.digest(data + salt) + data + salt);
    assert Iterate(h, 3, data + salt) == h.digest(Iterate(h, 2, data + salt));
    assert KeyStream(h, salt, data, iter, 1) == KeyStream(h, salt, data, iter, 0) + D(h, salt, data, iter, 1);
    assert D(h, salt, data, 1, 2) == Iterate(h, 1, D(h, salt, data, 1, 1) + data + salt);
  }

  /** D_1 || ... || D_n. */
  function KeyStream(h: Hash, salt: Bytes, data: Bytes, iter: int, n: nat): Bytes {
    if n == 0 then [] else KeyStream(h, salt, data, iter, n - 1) + D(h, salt, data, iter, n)
  }

  lemma {:induction false} KeyStreamLength(h: Hash, salt: Bytes, data: Bytes, iter: int, n: nat)
    requires ValidHash(h)
    ensures |KeyStream(h, salt, data, iter, n)| >= n
  {
    if n > 0 {
      KeyStreamLength(h, salt, data, iter, n - 1);
    }
  }

  lemma {:induction false} KeyStreamPrefix(h: Hash, salt: Bytes, data: Bytes, iter: int, n: nat, m: nat)
    requires n <= m
    ensures KeyStream(h, salt, data, iter, n) <= KeyStream(h, salt, data, iter, m)
    decreases m
  {
    if n < m {
      KeyStreamPrefix(h, salt, data, iter, n, m - 1);
    }
  }

  /** The first `total` bytes of the endless stream D_1 || D_2 || ... */
  ghost function Derived(h: Hash, salt: Bytes, data: Bytes, iter: int, total: nat): (r: Bytes)
    requires ValidHash(h)
    ensures |r| == total
  {
    KeyStreamLength(h, salt, data, iter, total);
    KeyStream(h, salt, data, iter, total)[..total]
  }

  lemma DerivedFromAny(h: Hash, salt: Bytes, data: Bytes, iter: int, total: nat, n: nat)
    requires ValidHash(h) && total <= |KeyStream(h, salt, data, iter, n)|
    ensures KeyStream(h, salt, data, iter, n)[..total] == Derived(h, salt, data, iter, total)
  {
    KeyStreamLength(h, salt, data, iter, total);
    if n <= total {
      KeyStreamPrefix(h, salt, data, iter, n, total);
    } else {
      KeyStreamPrefix(h, salt, data, iter, total, n);
    }
  }

  /** Asking for more bytes only extends the stream. */
  lemma DerivedExtends(h: Hash, salt: Bytes, data: Bytes, iter: int, total: nat, more: nat)
    requires ValidHash(h) && total <= more
    ensures Derived(h, salt, data, iter, total) <= Derived(h, salt, data, iter, more)
  {
    KeyStreamLength(h, salt, data, iter, total);
    KeyStreamLength(h, salt, data, iter, more);
    KeyStreamPrefix(h, salt, data, iter, total, more);
  }

  /** The inner loop: H^rounds(seed), every round overwriting `sum`. */
  method Stretch(h: Hasher, sum: array<byte>, ghost seed: Bytes, iter: int)
    requires ValidHash(h.h) && sum.Length == h.h.size && h.written == seed
    modifies h, sum
    ensures sum[..] == Iterate(h.h, Rounds(iter), seed)
  {
    h.Sum(sum);
    assert sum[..] == Iterate(h.h, 1, seed);
    var j := 1;
    while j < iter
      invariant 1 <= j <= Rounds(iter)
      invariant sum[..] == Iterate(h.h, j, seed)
    {
      h.Reset();
      h.Write(sum[..]);
      assert h.written == Iterate(h.h, j, seed);
      h.Sum(sum);
      j := j + 1;
    }
  }

  /** Although `sum` and `d` are overwritten in every round, the result is the
      stream of the recursive definition, cut to the two sizes. */
  method BytesToKey(hash: Hash, salt: Bytes, data: Bytes, iter: int, keySize: nat, ivSize: nat)
    returns (key: Bytes, iv: Bytes)
    requires ValidHash(hash)
    ensures |key| == keySize && |iv| == ivSize
    ensures key + iv == Derived(hash, salt, data, iter, keySize + ivSize)
  {
    var h := new Hasher(hash);
    var sum, d := new byte[hash.size], new byte[hash.size];
    var dLen := 0;
    var dcat: Bytes := [];
    ghost var i := 0;
    while |dcat| < keySize + ivSize
      invariant 0 <= dLen <= d.Length && d[..dLen] == D(hash, salt, data, iter, i)
      invariant dcat == KeyStream(hash, salt, data, iter, i)
      decreases keySize + ivSize - |dcat|
    {
      h.Reset();
      h.Write(d[..dLen]);
      h.Write(data);
      h.Write(salt);
      ghost var seed := D(hash, salt, data, iter, i) + data + salt;
      assert h.written == seed;
      Stretch(h, sum, seed, iter);
      dLen := sum.Length;
      forall k | 0 <= k < dLen {
        d[k] := sum[k];
      }
      i := i + 1;
      assert d[..dLen] == sum[..];
      dcat := dcat + d[..dLen];
    }
    DerivedFromAny(hash, salt, data, iter, keySize + ivSize, i);
    key, iv := dcat[..keySize], dcat[keySize..keySize + ivSize];
    assert key + iv == dcat[..keySize + ivSize];
  }
}
