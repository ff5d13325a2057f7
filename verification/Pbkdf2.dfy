/**
 PBKDF2-HMAC-SHA256 as the login path computes it: the SHA peripheral is driven
 block by block, resuming two prepared states, and is given up between batches.

 SHA-256 is a Merkle-Damgard iteration over an arbitrary compression function, so
 the result holds for whatever the hardware computes on one block.
 */
module Pbkdf2 {

  const SHA_BLOCK := 64
  const HASH_LEN := 32
  const PBKDF2_BATCH := 64

  type Bytes = seq<bv8>
  type Block = b: Bytes | |b| == SHA_BLOCK witness seq(SHA_BLOCK, _ => 0)
  type Digest = d: Bytes | |d| == HASH_LEN witness seq(HASH_LEN, _ => 0)

  /** A hash function: its initial value and its compression function. */
  datatype Sha = Sha(iv: Digest, compress: (Digest, Block) -> Digest)

  datatype Derived = Derived(hash: Digest) | InvalidArg

  // ----- The standards -----

  function Fill(n: nat, v: bv8): (r: Bytes)
    ensures |r| == n
    ensures forall i :: 0 <= i < n ==> r[i] == v
  {
    seq(n, _ => v)
  }

  function Pow256(k: nat): (r: nat)
    ensures r > 0
  {
    if k == 0 then 1 else 256 * Pow256(k - 1)
  }

  /** The number that bytes spell, the most significant first. */
  function Value(b: Bytes): nat {
    if b == [] then 0 else 256 * Value(b[..|b| - 1]) + b[|b| - 1] as nat
  }

  /** The byte of a number below 256. */
  function Byte(m: nat): bv8
    requires m < 256
  {
    if m == 0 then 0 else Byte(m - 1) + 1
  }

  lemma {:induction false} ByteIsNumber(m: nat)
    requires m < 256
    ensures Byte(m) as nat == m
  {
    if m > 0 {
      ByteIsNumber(m - 1);
    }
  }

  /** `n` without its last `i` bytes. */
  function Shifted(n: nat, i: nat): nat {
    if i == 0 then n else Shifted(n / 256, i - 1)
  }

  /** The last `k` bytes of `n`, the most significant first. */
  function BigEndian(n: nat, k: nat): (r: Bytes)
    ensures |r| == k
  {
    seq(k, i requires 0 <= i < k => Byte(Shifted(n, k - 1 - i) % 256))
  }

  lemma LastByte(n: nat, k: nat)
    requires k > 0
    ensures BigEndian(n, k) == BigEndian(n / 256, k - 1) + [Byte(n % 256)]
  {
    var (all, most) := (BigEndian(n, k), BigEndian(n / 256, k - 1) + [Byte(n % 256)]);
    forall i | 0 <= i < k ensures all[i] == most[i] {
      assert i < k - 1 ==> Shifted(n, k - 1 - i) == Shifted(n / 256, k - 2 - i);
    }
  }

  /** They spell that very number, if it fits. */
  lemma {:induction false} BigEndianValue(n: nat, k: nat)
    requires n < Pow256(k)
    ensures Value(BigEndian(n, k)) == n
  {
    if k > 0 {
      BigEndianValue(n / 256, k - 1);
      LastByte(n, k);
      ByteIsNumber(n % 256);
      ValueAppend(BigEndian(n / 256, k - 1), Byte(n % 256));
    }
  }

  lemma ValueAppend(b: Bytes, x: bv8)
    ensures Value(b + [x]) == 256 * Value(b) + x as nat
  {
    assert (b + [x])[..|b|] == b;
  }

  /** Section 5.1.1 of FIPS 180-4: 0x80, zeros up to 56 mod 64, the bit length. */
  function Padding(len: nat): (r: Bytes)
    ensures (len + |r|) % SHA_BLOCK == 0
    ensures 9 <= |r| <= SHA_BLOCK + 8
  {
    [0x80] + Fill((119 - len % 64) % 64, 0) + BigEndian(len * 8, 8)
  }

  /** The iteration of the compression function over whole blocks. */
  function Absorb(sha: Sha, state: Digest, msg: Bytes): Digest
    requires |msg| % SHA_BLOCK == 0
    decreases |msg|
  {
    if msg == [] then state
    else Absorb(sha, sha.compress(state, msg[..SHA_BLOCK]), msg[SHA_BLOCK..])
  }

  function Sha256(sha: Sha, msg: Bytes): Digest {
    Absorb(sha, sha.iv, msg + Padding(|msg|))
  }

  function Xor(a: Bytes, b: Bytes): (r: Bytes)
    requires |a| == |b|
    ensures |r| == |a|
  {
    seq(|a|, i requires 0 <= i < |a| => a[i] ^ b[i])
  }

  /** Section 2 of RFC 2104: a long key is hashed, then zeros fill the block. */
  function HmacKey(sha: Sha, key: Bytes): Block {
    var k := ShortKey(sha, key);
    k + Fill(SHA_BLOCK - |k|, 0)
  }

  function ShortKey(sha: Sha, key: Bytes): (r: Bytes)
    ensures |r| <= SHA_BLOCK
  {
    if |key| > SHA_BLOCK then Sha256(sha, key) else key
  }

  function InnerPad(sha: Sha, key: Bytes): Block {
    Xor(HmacKey(sha, key), Fill(SHA_BLOCK, 0x36))
  }

  function OuterPad(sha: Sha, key: Bytes): Block {
    Xor(HmacKey(sha, key), Fill(SHA_BLOCK, 0x5c))
  }

  function Hmac(sha: Sha, key: Bytes, msg: Bytes): Digest {
    Sha256(sha, OuterPad(sha, key) + Sha256(sha, InnerPad(sha, key) + msg))
  }

  /** HMAC under one key, as the pseudorandom function of RFC 8018. */
  function HmacPrf(sha: Sha, key: Bytes): Bytes -> Digest {
    msg => Hmac(sha, key, msg)
  }

  /** U_i of section 5.2 of RFC 8018, for the first output block. */
  function U(prf: Bytes -> Digest, salt: Bytes, i: nat): Digest
    requires i >= 1
  {
    if i == 1 then prf(salt + [0, 0, 0, 1]) else prf(U(prf, salt, i - 1))
  }

  /** T_1 = U_1 xor ... xor U_c. */
  function T1(prf: Bytes -> Digest, salt: Bytes, c: nat): Digest
    requires c >= 1
  {
    if c == 1 then U(prf, salt, 1) else Xor(T1(prf, salt, c - 1), U(prf, salt, c))
  }

  // ----- Resuming a prepared state is hashing -----

  /** The second and last block of a message whose first block is a pad. */
  function TailBlock(tail: Bytes): Block
    requires |tail| <= SHA_BLOCK - 9
  {
    tail + Padding(SHA_BLOCK + |tail|)
  }

  lemma ResumedHash(sha: Sha, pad: Block, tail: Bytes)
    requires |tail| <= SHA_BLOCK - 9
    ensures Sha256(sha, pad + tail) == sha.compress(sha.compress(sha.iv, pad), TailBlock(tail))
  {
    var msg := pad + tail + Padding(SHA_BLOCK + |tail|);
    assert msg[..SHA_BLOCK] == pad;
    var rest := msg[SHA_BLOCK..];
    assert rest == TailBlock(tail);
    assert rest[..SHA_BLOCK] == rest && rest[SHA_BLOCK..] == [];
    assert Absorb(sha, sha.compress(sha.iv, pad), rest)
        == Absorb(sha, sha.compress(sha.compress(sha.iv, pad), rest[..SHA_BLOCK]), rest[SHA_BLOCK..]);
  }

  /** `prf` is two block operations from the prepared states `inner` and `outer`. */
  ghost predicate Prepared(sha: Sha, inner: Digest, outer: Digest, prf: Bytes -> Digest) {
    forall m {:trigger TailBlock(m)} :: |m| <= SHA_BLOCK - 9 ==>
      prf(m) == sha.compress(outer, TailBlock(sha.compress(inner, TailBlock(m))))
  }

  lemma ResumedHmac(sha: Sha, key: Bytes)
    ensures Prepared(sha, sha.compress(sha.iv, InnerPad(sha, key)), sha.compress(sha.iv, OuterPad(sha, key)),
                     HmacPrf(sha, key))
  {
    forall m: Bytes | |m| <= SHA_BLOCK - 9
      ensures Hmac(sha, key, m)
           == sha.compress(sha.compress(sha.iv, OuterPad(sha, key)),
                           TailBlock(sha.compress(sha.compress(sha.iv, InnerPad(sha, key)), TailBlock(m))))
    {
      ResumedHash(sha, InnerPad(sha, key), m);
      ResumedHash(sha, OuterPad(sha, key), Sha256(sha, InnerPad(sha, key) + m));
    }
  }

  // ----- The peripheral -----

  /** One digest register, shared with every other user of the hardware. */
  class ShaEngine {
    const sha: Sha
    var digest: Digest
    var held: bool

    constructor (sha: Sha)
      ensures this.sha == sha && !held
    {
      this.sha := sha;
      digest := sha.iv;
      held := false;
    }

    /** Whoever held the hardware before may have left anything in the register. */
    method Acquire()
      requires !held
      modifies this
      ensures held
    {
      digest := *;
      held := true;
    }

    method Release()
      requires held
      modifies this
      ensures !held
    {
      held := false;
      digest := *;
    }

    method WriteDigestState(state: Digest)
      requires held
      modifies this`digest
      ensures digest == state
    {
      digest := state;
    }

    method CompressBlock(block: Block, start: bool)
      requires held
      modifies this`digest
      ensures digest == sha.compress(if start then sha.iv else old(digest), block)
    {
      digest := sha.compress(if start then sha.iv else digest, block);
    }

    /** One hash over `block`, resumed from `state`. */
    method Resume(state: Digest, block: Block) returns (out: Digest)
      requires held
      modifies this`digest
      ensures out == sha.compress(state, block)
    {
      WriteDigestState(state);
      CompressBlock(block, false);
      out := digest;
    }
  }

  lemma ZeroFill(n: nat)
    requires n <= SHA_BLOCK - 9
    ensures (119 - (SHA_BLOCK + n) % 64) % 64 == SHA_BLOCK - 9 - n
  {
    assert (SHA_BLOCK + n) % 64 == n;
    assert 119 - n == 64 + (55 - n);
  }

  lemma TailBlockParts(tail: Bytes)
    requires |tail| <= SHA_BLOCK - 9
    ensures TailBlock(tail) == tail + [0x80] + Fill(SHA_BLOCK - 9 - |tail|, 0) + BigEndian((SHA_BLOCK + |tail|) * 8, 8)
  {
    ZeroFill(|tail|);
    var zeros := Fill(SHA_BLOCK - 9 - |tail|, 0);
    var count := BigEndian((SHA_BLOCK + |tail|) * 8, 8);
    assert Padding(SHA_BLOCK + |tail|) == [0x80] + zeros + count;
    assert tail + ([0x80] + zeros + count) == tail + [0x80] + zeros + count;
  }

  /** What the last block holds: the tail, 0x80, zeros, and eight bytes that spell the count of bits. */
  lemma TailBlockBytes(tail: Bytes)
    requires |tail| <= SHA_BLOCK - 9
    ensures var (block, n) := (TailBlock(tail), |tail|);
            && block[..n] == tail && block[n] == 0x80
            && (forall k :: n < k < SHA_BLOCK - 8 ==> block[k] == 0)
            && Value(block[SHA_BLOCK - 8..]) == (SHA_BLOCK + n) * 8
  {
    var bits := (SHA_BLOCK + |tail|) * 8;
    TailBlockParts(tail);
    assert TailBlock(tail)[SHA_BLOCK - 8..] == BigEndian(bits, 8);
    assert bits < Pow256(2) == 65536 <= Pow256(8);
    BigEndianValue(bits, 8);
  }

  /** The final block: tail, 0x80, zero fill, and the count of SHA_BLOCK + tail bytes, shifted out from the end. */
  method FinalBlock(block: array<bv8>, tail: Bytes)
    requires block.Length == SHA_BLOCK && |tail| <= SHA_BLOCK - 9
    modifies block
    ensures block[..] == TailBlock(tail)
  {
    forall k | 0 <= k < SHA_BLOCK { block[k] := 0; }
    forall k | 0 <= k < |tail| { block[k] := tail[k]; }
    block[|tail|] := 0x80;
    ghost var head := tail + [0x80] + Fill(SHA_BLOCK - 9 - |tail|, 0);
    assert block[..SHA_BLOCK - 8] == head;
    var bits := (SHA_BLOCK + |tail|) * 8;
    for i := 0 to 8
      invariant block[..SHA_BLOCK - 8] == head
      invariant forall k :: SHA_BLOCK - i <= k < SHA_BLOCK ==> block[k] == Byte(Shifted(bits, SHA_BLOCK - 1 - k) % 256)
    {
      block[SHA_BLOCK - 1 - i] := Byte(Shifted(bits, i) % 256);
    }
    TailBlockParts(tail);
    assert block[SHA_BLOCK - 8..] == BigEndian(bits, 8);
    assert block[..] == block[..SHA_BLOCK - 8] + block[SHA_BLOCK - 8..];
  }

  /** Both HMAC pads, keyed byte by byte. */
  method KeyPads(sha: Sha, key: Bytes) returns (ipad: Block, opad: Block)
    ensures ipad == InnerPad(sha, key) && opad == OuterPad(sha, key)
  {
    var k := if |key| > SHA_BLOCK then Sha256(sha, key) else key;
    var a, b := new bv8[SHA_BLOCK](_ => 0x36), new bv8[SHA_BLOCK](_ => 0x5c);
    for i := 0 to |k|
      invariant forall j :: 0 <= j < SHA_BLOCK ==> a[j] == if j < i then 0x36 ^ k[j] else 0x36
      invariant forall j :: 0 <= j < SHA_BLOCK ==> b[j] == if j < i then 0x5c ^ k[j] else 0x5c
    {
      a[i], b[i] := a[i] ^ k[i], b[i] ^ k[i];
    }
    ipad, opad := a[..], b[..];
    assert ipad == InnerPad(sha, key);
    assert opad == OuterPad(sha, key);
  }

  /** One PRF call: both halves resumed, the inner digest fed to the outer hash. */
  method Prf(engine: ShaEngine, block: array<bv8>, inner: Digest, outer: Digest, tail: Bytes,
             ghost prf: Bytes -> Digest)
    returns (u: Digest)
    requires engine.held
    requires block.Length == SHA_BLOCK && |tail| <= SHA_BLOCK - 9
    requires Prepared(engine.sha, inner, outer, prf)
    modifies engine`digest, block
    ensures u == prf(tail)
  {
    FinalBlock(block, tail);
    u := engine.Resume(inner, block[..]);
    FinalBlock(block, u);
    u := engine.Resume(outer, block[..]);
  }

  method XorInto(acc: array<bv8>, u: Digest)
    requires acc.Length == HASH_LEN
    modifies acc
    ensures acc[..] == Xor(old(acc[..]), u)
  {
    for b := 0 to HASH_LEN
      invariant forall j :: 0 <= j < HASH_LEN ==> acc[j] == if j < b then old(acc[j]) ^ u[j] else old(acc[j])
    {
      acc[b] := acc[b] ^ u[b];
    }
  }

  /** One hold of the hardware: `n` more iterations folded into the accumulator. */
  method Batch(engine: ShaEngine, block: array<bv8>, acc: array<bv8>, inner: Digest, outer: Digest,
               first: Digest, n: nat, ghost prf: Bytes -> Digest, ghost salt: Bytes, ghost i: nat)
    returns (u: Digest)
    requires !engine.held && i >= 1
    requires block.Length == SHA_BLOCK && acc.Length == HASH_LEN && acc != block
    requires Prepared(engine.sha, inner, outer, prf)
    requires first == U(prf, salt, i) && acc[..] == T1(prf, salt, i)
    modifies engine, block, acc
    ensures !engine.held
    ensures u == U(prf, salt, i + n) && acc[..] == T1(prf, salt, i + n)
  {
    engine.Acquire();
    u := first;
    for j := 0 to n
      invariant engine.held
      invariant u == U(prf, salt, i + j) && acc[..] == T1(prf, salt, i + j)
    {
      u := Prf(engine, block, inner, outer, u, prf);
      XorInto(acc, u);
    }
    engine.Release();
  }

  /** The batches after U_1, the hardware given up between each two. */
  method Iterate(engine: ShaEngine, block: array<bv8>, inner: Digest, outer: Digest, first: Digest, iters: nat,
                 ghost prf: Bytes -> Digest, ghost salt: Bytes)
    returns (t: Digest)
    requires !engine.held && iters >= 1
    requires block.Length == SHA_BLOCK
    requires Prepared(engine.sha, inner, outer, prf)
    requires first == U(prf, salt, 1)
    modifies engine, block
    ensures !engine.held
    ensures t == T1(prf, salt, iters)
  {
    var u := first;
    var acc := new bv8[HASH_LEN](k requires 0 <= k < HASH_LEN => first[k]);
    assert acc[..] == first;
    var i := 1;
    while i < iters
      invariant 1 <= i <= iters && !engine.held
      invariant u == U(prf, salt, i) && acc[..] == T1(prf, salt, i)
    {
      var n := iters - i;
      if n > PBKDF2_BATCH {
        n := PBKDF2_BATCH;
      }
      u := Batch(engine, block, acc, inner, outer, u, n, prf, salt, i);
      i := i + n;
    }
    t := acc[..];
  }

  /**
   The whole derivation. Whatever the register holds at each acquire, the result is
   T_1; the arguments refused are exactly those T_1 would need another block for.
   */
  method Pbkdf2Sha256(engine: ShaEngine, password: Bytes, salt: Bytes, iters: nat, outLen: nat)
    returns (r: Derived)
    requires !engine.held
    modifies engine
    ensures !engine.held
    ensures r.InvalidArg? <==> outLen != HASH_LEN || iters == 0 || |salt| + 4 > SHA_BLOCK - 9
    ensures r.Derived? ==> r.hash == T1(HmacPrf(engine.sha, password), salt, iters)
  {
    if outLen != HASH_LEN || iters == 0 || |salt| + 4 > SHA_BLOCK - 9 {
      return InvalidArg;
    }
    var ipad, opad := KeyPads(engine.sha, password);
    ghost var prf := HmacPrf(engine.sha, password);
    var block := new bv8[SHA_BLOCK];

    engine.Acquire();
    engine.CompressBlock(ipad, true);
    var inner := engine.digest;
    engine.CompressBlock(opad, true);
    var outer := engine.digest;
    assert Prepared(engine.sha, inner, outer, prf) by { ResumedHmac(engine.sha, password); }
    var u := Prf(engine, block, inner, outer, salt + [0, 0, 0, 1], prf);
    engine.Release();

    var t := Iterate(engine, block, inner, outer, u, iters, prf, salt);
    r := Derived(t);
  }

  // ----- Checking a password -----

  lemma DifferenceAccumulates(diff: bv8, x: bv8, y: bv8)
    ensures diff | (x ^ y) == 0 <==> diff == 0 && x == y
  {
  }

  /** Looks at every byte, and says whether they all agree. */
  method EqualCt(a: Bytes, b: Bytes, len: nat) returns (same: bool)
    requires len <= |a| && len <= |b|
    ensures same <==> a[..len] == b[..len]
  {
    var diff: bv8 := 0;
    for i := 0 to len
      invariant diff == 0 <==> forall j :: 0 <= j < i ==> a[j] == b[j]
    {
      DifferenceAccumulates(diff, a[i], b[i]);
      diff := diff | (a[i] ^ b[i]);
    }
    same := diff == 0;
    assert same ==> forall j :: 0 <= j < len ==> a[..len][j] == b[..len][j];
    assert a[..len] == b[..len] ==> forall j :: 0 <= j < len ==> a[j] == a[..len][j] == b[..len][j] == b[j];
  }

  datatype Account = NoAccount | Account(locked: bool, iters: nat, salt: Bytes, hash: Digest)

  /** A password is accepted exactly when the account is there, is not locked, and stores what it derives to. */
  method Verify(engine: ShaEngine, rec: Account, password: Bytes) returns (ok: bool)
    requires !engine.held
    modifies engine
    ensures !engine.held
    ensures ok <==> rec.Account? && !rec.locked && rec.iters != 0 && |rec.salt| + 4 <= SHA_BLOCK - 9
                    && rec.hash == T1(HmacPrf(engine.sha, password), rec.salt, rec.iters)
  {
    if rec.NoAccount? || rec.locked {
      return false;
    }
    var derived := Pbkdf2Sha256(engine, password, rec.salt, rec.iters, HASH_LEN);
    if derived.InvalidArg? {
      return false;
    }
    ok := EqualCt(derived.hash, rec.hash, HASH_LEN);
    assert derived.hash[..HASH_LEN] == derived.hash && rec.hash[..HASH_LEN] == rec.hash;
  }
}
