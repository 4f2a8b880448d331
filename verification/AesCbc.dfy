/** AES_cbc_encrypt (aes.c:1265-1314): cipher block chaining, section 6.2 of
    NIST SP 800-38A, with the source's treatment of a final partial block. */
module AesCbc {
  import opened Common
  import opened AesField
  import opened AesSpec
  import opened AesCode

  type BlockFn = Block -> Block

  /** Length of the ciphertext: whole blocks. */
  function Padded(n: nat): (m: nat)
    ensures n <= m < n + 16 && m % 16 == 0
  {
    if n == 0 then 0 else if n < 16 then 16 else 16 + Padded(n - 16)
  }

  /** A plaintext block; a short one is filled with zeros. */
  function PadBlock(p: seq<u8>): Block
    requires |p| <= 16
  {
    ToBlock(p + Zeros(16 - |p|))
  }

  function CbcEnc(E: BlockFn, iv: Block, data: seq<u8>): (c: seq<u8>)
    ensures |c| == Padded(|data|)
    decreases |data|
  {
    if data == [] then []
    else if |data| < 16 then ToBytes(E(XorBlock(PadBlock(data), iv)))
    else
      var c := E(XorBlock(PadBlock(data[..16]), iv));
      ToBytes(c) + CbcEnc(E, c, data[16..])
  }

  /** The ivec left behind by encryption: the last ciphertext block. */
  function EncIv(E: BlockFn, iv: Block, data: seq<u8>): Block
    decreases |data|
  {
    if data == [] then iv
    else if |data| < 16 then E(XorBlock(PadBlock(data), iv))
    else EncIv(E, E(XorBlock(PadBlock(data[..16]), iv)), data[16..])
  }

  /** Decryption of `len` bytes; a final partial block is read whole and cut. */
  function CbcDec(D: BlockFn, iv: Block, cipher: seq<u8>, len: nat): (d: seq<u8>)
    requires Padded(len) <= |cipher|
    ensures |d| == len
    decreases len
  {
    if len == 0 then []
    else
      var c := ToBlock(cipher[..16]);
      var p := ToBytes(XorBlock(D(c), iv));
      if len < 16 then p[..len] else p + CbcDec(D, c, cipher[16..], len - 16)
  }

  /** The ivec left behind by decryption.  After a partial block it is the decrypted block
      and not, as in encryption, the ciphertext (aes.c:1308-1311). */
  function DecIv(D: BlockFn, iv: Block, cipher: seq<u8>, len: nat): Block
    requires Padded(len) <= |cipher|
    decreases len
  {
    if len == 0 then iv
    else
      var c := ToBlock(cipher[..16]);
      if len < 16 then D(c) else DecIv(D, c, cipher[16..], len - 16)
  }

  // ------------------------------------------------------------------- proofs

  ghost predicate Undoes(D: BlockFn, E: BlockFn) { forall b: Block :: D(E(b)) == b }

  lemma {:induction false} EncBlockUndone(E: BlockFn, D: BlockFn, iv: Block, p: seq<u8>)
    requires Undoes(D, E) && |p| <= 16
    ensures ToBlock(ToBytes(E(XorBlock(PadBlock(p), iv)))) == E(XorBlock(PadBlock(p), iv))
    ensures ToBytes(XorBlock(D(E(XorBlock(PadBlock(p), iv))), iv)) == p + Zeros(16 - |p|)
  {
    hide XorBlock, ToBlock, ToBytes;
    XorBlockInverts(PadBlock(p), iv);
    BytesRoundTrip(p + Zeros(16 - |p|), E(XorBlock(PadBlock(p), iv)));
  }

  /** MAIN RESULT.  For every length, decrypting what was encrypted, from the same starting
      ivec, restores the data; reading the padding too yields zeros. */
  lemma {:induction false} CbcRoundTrip(E: BlockFn, D: BlockFn, iv: Block, data: seq<u8>)
    requires Undoes(D, E)
    ensures CbcDec(D, iv, CbcEnc(E, iv, data), |data|) == data
    ensures CbcDec(D, iv, CbcEnc(E, iv, data), Padded(|data|)) == data + Zeros(Padded(|data|) - |data|)
    decreases |data|
  {
    hide XorBlock, ToBlock, ToBytes, PadBlock, Padded, Undoes;
    if data == [] {
      assert Padded(0) == 0;
    } else if |data| < 16 {
      EncBlockUndone(E, D, iv, data);
      var c := E(XorBlock(PadBlock(data), iv));
      assert ToBytes(c)[..16] == ToBytes(c) && Padded(|data|) == 16;
      assert CbcDec(D, c, ToBytes(c)[16..], 0) == [];
    } else {
      var c := E(XorBlock(PadBlock(data[..16]), iv));
      EncBlockUndone(E, D, iv, data[..16]);
      CbcRoundTrip(E, D, c, data[16..]);
      var rest := CbcEnc(E, c, data[16..]);
      assert (ToBytes(c) + rest)[..16] == ToBytes(c) && (ToBytes(c) + rest)[16..] == rest;
      assert data[..16] + Zeros(0) == data[..16];
      assert data[..16] + data[16..] == data;
    }
  }

  /** Encrypting whole blocks first and the rest with the carried ivec changes nothing. */
  lemma {:induction false} CbcEncSplit(E: BlockFn, iv: Block, a: seq<u8>, b: seq<u8>)
    requires |a| % 16 == 0
    ensures CbcEnc(E, iv, a + b) == CbcEnc(E, iv, a) + CbcEnc(E, EncIv(E, iv, a), b)
    decreases |a|
  {
    hide XorBlock, ToBlock, ToBytes, PadBlock;
    if a == [] {
      assert a + b == b;
    } else {
      assert (a + b)[..16] == a[..16] && (a + b)[16..] == a[16..] + b;
      CbcEncSplit(E, E(XorBlock(PadBlock(a[..16]), iv)), a[16..], b);
    }
  }

  /** Likewise for decrypting. */
  lemma {:induction false} CbcDecSplit(D: BlockFn, iv: Block, a: seq<u8>, b: seq<u8>, len: nat)
    requires |a| % 16 == 0 && Padded(len) <= |b|
    ensures Padded(|a|) == |a| && Padded(|a| + len) <= |a| + |b|
    ensures CbcDec(D, iv, a + b, |a| + len) == CbcDec(D, iv, a, |a|) + CbcDec(D, DecIv(D, iv, a, |a|), b, len)
    decreases |a|
  {
    hide XorBlock, ToBlock, ToBytes;
    if a == [] {
      assert a + b == b;
    } else {
      assert (a + b)[..16] == a[..16] && (a + b)[16..] == a[16..] + b;
      CbcDecSplit(D, ToBlock(a[..16]), a[16..], b, len);
    }
  }

  /** The block a partial tail is chained into: the padded tail and the ivec carried to it. */
  function LastChained(E: BlockFn, iv: Block, data: seq<u8>): Block {
    var n := |data| - |data| % 16;
    XorBlock(PadBlock(data[n..]), EncIv(E, iv, data[..n]))
  }

  lemma {:induction false} EncIvStep(E: BlockFn, iv: Block, data: seq<u8>)
    requires |data| >= 16
    ensures EncIv(E, iv, data) == EncIv(E, E(XorBlock(PadBlock(data[..16]), iv)), data[16..])
  {
    hide XorBlock, PadBlock;
  }

  lemma {:induction false} TailAfter16(data: seq<u8>, n: nat)
    requires 16 <= n <= |data|
    ensures data[..n][..16] == data[..16] && data[..n][16..] == data[16..][..n - 16]
    ensures data[n..] == data[16..][n - 16..]
  {
  }

  lemma {:induction false} LastChainedStep(E: BlockFn, iv: Block, data: seq<u8>)
    requires |data| >= 16
    ensures LastChained(E, iv, data) == LastChained(E, E(XorBlock(PadBlock(data[..16]), iv)), data[16..])
  {
    hide XorBlock, PadBlock, EncIv;
    var n := |data| - |data| % 16;
    assert |data[16..]| - |data[16..]| % 16 == n - 16;
    TailAfter16(data, n);
    EncIvStep(E, iv, data[..n]);
  }

  /** The two directions leave the same ivec exactly when the data ends on a block or the cipher maps
      the block its tail is chained into to itself. */
  lemma {:induction false} IvAgree(E: BlockFn, D: BlockFn, iv: Block, data: seq<u8>)
    requires Undoes(D, E)
    ensures DecIv(D, iv, CbcEnc(E, iv, data), |data|) == EncIv(E, iv, data)
            <==> |data| % 16 == 0 || E(LastChained(E, iv, data)) == LastChained(E, iv, data)
    decreases |data|
  {
    hide XorBlock, ToBlock, ToBytes, PadBlock, LastChained;
    if data == [] {
    } else {
      var c := E(XorBlock(PadBlock(if |data| < 16 then data else data[..16]), iv));
      BytesRoundTrip(ToBytes(c), c);
      if |data| < 16 {
        assert ToBytes(c)[..16] == ToBytes(c);
        ShortChained(E, iv, data);
        assert D(c) == LastChained(E, iv, data);
      } else {
        var x := CbcEnc(E, c, data[16..]);
        IvAgree(E, D, c, data[16..]);
        LastChainedStep(E, iv, data);
        assert (ToBytes(c) + x)[..16] == ToBytes(c) && (ToBytes(c) + x)[16..] == x;
      }
    }
  }

  lemma {:induction false} ShortChained(E: BlockFn, iv: Block, data: seq<u8>)
    requires 0 < |data| < 16
    ensures LastChained(E, iv, data) == XorBlock(PadBlock(data), iv)
  {
    hide XorBlock, PadBlock;
    assert data[0..] == data && data[..0] == [];
  }

  // ----------------------------------------------------------------- the code

  function XorBytes(a: seq<u8>, b: seq<u8>): (r: seq<u8>)
    requires |a| == |b|
    ensures |r| == |a| && forall n :: 0 <= n < |a| ==> r[n] == Xor(a[n], b[n])
  {
    seq(|a|, n requires 0 <= n < |a| => Xor(a[n], b[n]))
  }

  lemma {:induction false} XorBytesBlock(a: seq<u8>, b: seq<u8>)
    requires |a| == |b| == 16
    ensures ToBlock(XorBytes(a, b)) == XorBlock(ToBlock(a), ToBlock(b))
  {
    hide Xor;
  }

  lemma {:induction false} BlockXorBytes(a: Block, b: Block)
    ensures ToBytes(XorBlock(a, b)) == XorBytes(ToBytes(a), ToBytes(b))
  {
    hide Xor, XorBlock, ToBlock, ToBytes;
    var x := XorBytes(ToBytes(a), ToBytes(b));
    XorBytesBlock(ToBytes(a), ToBytes(b));
    BytesRoundTrip(x, a);
    BytesRoundTrip(x, b);
  }

  function CipherFn(t: Sbox, k: Schedule): BlockFn
    requires |k| >= 2
  {
    b => Cipher(t, k, b)
  }

  function DecipherFn(t: Sbox, dk: Schedule): BlockFn
    requires |dk| >= 2
  {
    b => EqInvCipher(t, dk, b)
  }

  /** tmp[n] = in[n] ^ ivec[n] for the bytes there are, ivec[n] for the rest
      (aes.c:1278-1279, 1287-1290). */
  method XorInto(inp: array<u8>, i: nat, len: nat, ivec: array<u8>, tmp: array<u8>)
    requires len <= 16 && i + len <= inp.Length && ivec.Length == 16 && tmp.Length == 16
    requires tmp != inp && tmp != ivec
    modifies tmp
    ensures ToBlock(tmp[..]) == XorBlock(PadBlock(inp[i..i + len]), ToBlock(ivec[..]))
  {
    hide XorBlock, ToBlock, Xor;
    ghost var p := inp[i..i + len] + Zeros(16 - len);
    for n := 0 to len
      invariant forall m :: 0 <= m < n ==> tmp[m] == Xor(p[m], ivec[m])
    {
      tmp[n] := Xor(inp[i + n], ivec[n]);
    }
    for n := len to 16
      invariant forall m :: 0 <= m < n ==> tmp[m] == Xor(p[m], ivec[m])
    {
      XorCancel(ivec[n], 0);
      tmp[n] := ivec[n];
    }
    XorBytesBlock(p, ivec[..]);
    assert tmp[..] == XorBytes(p, ivec[..]);
  }

  method Copy(src: array<u8>, i: nat, dst: array<u8>)
    requires i + 16 <= src.Length && dst.Length == 16 && src != dst
    modifies dst
    ensures dst[..] == src[i..i + 16]
  {
    for n := 0 to 16
      invariant dst[..n] == src[i..i + n]
    {
      dst[n] := src[i + n];
    }
  }

  /** Where the encryption loop stands after n bytes: what is written, and what is still
      to come, continue the one ciphertext. */
  ghost predicate EncAt(E: BlockFn, iv0: Block, data: seq<u8>, n: nat, done: seq<u8>, iv: Block) {
    && n <= |data| && n % 16 == 0 && |done| == n
    && CbcEnc(E, iv0, data) == done + CbcEnc(E, iv, data[n..])
    && EncIv(E, iv0, data) == EncIv(E, iv, data[n..])
  }

  lemma {:induction false} EncStep(E: BlockFn, iv0: Block, data: seq<u8>, n: nat, done: seq<u8>, iv: Block)
    requires EncAt(E, iv0, data, n, done, iv) && n + 16 <= |data|
    ensures var c := E(XorBlock(PadBlock(data[n..n + 16]), iv));
            EncAt(E, iv0, data, n + 16, done + ToBytes(c), c)
  {
    hide XorBlock, ToBlock, ToBytes, PadBlock;
    var c := E(XorBlock(PadBlock(data[n..n + 16]), iv));
    assert data[n..][..16] == data[n..n + 16] && data[n..][16..] == data[n + 16..];
    assert (done + ToBytes(c)) + CbcEnc(E, c, data[n + 16..]) == done + (ToBytes(c) + CbcEnc(E, c, data[n + 16..]));
  }

  /** The key schedule lies outside the buffers that are written. */
  predicate Apart(key: AesKey, out: array<u8>, ivec: array<u8>) {
    key.rdKey as object != out as object && key.rdKey as object != ivec as object
  }

  /** Chain one block of `len` <= 16 bytes (aes.c:1278-1281, and 1287-1293 for the tail). */
  method ChainBlock(t: Sbox, key: AesKey, inp: array<u8>, n: nat, len: nat, out: array<u8>, ivec: array<u8>)
    requires key.Ready() && len <= 16 && n + len <= inp.Length && n + 16 <= out.Length && ivec.Length == 16
    requires ivec != inp && ivec != out && Apart(key, out, ivec)
    modifies out, ivec
    ensures unchanged(key) && unchanged(key.rdKey)
    ensures var c := Cipher(t, old(key.Keys()), XorBlock(PadBlock(old(inp[n..n + len])), old(ToBlock(ivec[..]))));
            && out[..] == old(out[..n]) + ToBytes(c) + old(out[n + 16..])
            && ToBlock(ivec[..]) == c
  {
    hide XorBlock, ToBlock, ToBytes, PadBlock, Cipher;
    var tmp := new u8[16](_ => 0);
    XorInto(inp, n, len, ivec, tmp);
    ghost var c := Cipher(t, key.Keys(), ToBlock(tmp[..]));
    BytesRoundTrip(ToBytes(c), c);
    assert tmp[0..0 + 16] == tmp[..];
    key.Encrypt(t, tmp, 0, out, n);
    assert out[n..n + 16] == ToBytes(c);
    Copy(out, n, ivec);
  }

  /** The whole blocks of AES_cbc_encrypt with enc != 0 (aes.c:1277-1285). */
  method EncryptBlocks(t: Sbox, key: AesKey, inp: array<u8>, out: array<u8>, length: nat, ivec: array<u8>)
    returns (n: nat)
    requires key.Ready() && length <= inp.Length && Padded(length) <= out.Length && ivec.Length == 16
    requires ivec != inp && ivec != out && Apart(key, out, ivec)
    modifies out, ivec
    ensures unchanged(key) && unchanged(key.rdKey) && n <= length < n + 16 && n <= out.Length
    ensures EncAt(CipherFn(t, old(key.Keys())), old(ToBlock(ivec[..])), old(inp[..length]), n, out[..n],
                  ToBlock(ivec[..]))
    ensures inp[n..length] == old(inp[n..length]) && out[n..] == old(out[n..])
  {
    hide XorBlock, ToBlock, ToBytes, PadBlock, Cipher, EncAt, CbcEnc, EncIv;
    ghost var E, iv0, data := CipherFn(t, key.Keys()), ToBlock(ivec[..]), inp[..length];
    EncStart(E, iv0, data);
    n := 0;
    assert out[..0] == [];
    while length - n >= 16
      invariant 0 <= n <= length && unchanged(key) && unchanged(key.rdKey)
      invariant EncAt(E, iv0, data, n, out[..n], ToBlock(ivec[..]))
      invariant inp[n..length] == old(inp[n..length])
      invariant out[n..] == old(out[n..])
    {
      EncStep(E, iv0, data, n, out[..n], ToBlock(ivec[..]));
      assert inp[n..n + 16] == inp[n..length][..16] == data[n..n + 16];
      ghost var was, now := out[..], inp[..];
      ChainBlock(t, key, inp, n, 16, out, ivec);
      Spliced(was, out[..], n, ToBytes(ToBlock(ivec[..])));
      assert inp[n + 16..length] == now[n..length][16..];
      n := n + 16;
    }
  }

  /** AES_cbc_encrypt with enc != 0 (aes.c:1276-1294).  in and out may be one buffer,
      worked on in place. */
  method CbcEncrypt(t: Sbox, key: AesKey, inp: array<u8>, out: array<u8>, length: nat, ivec: array<u8>)
    requires key.Ready() && length <= inp.Length && Padded(length) <= out.Length && ivec.Length == 16
    requires ivec != inp && ivec != out && Apart(key, out, ivec)
    modifies out, ivec
    ensures unchanged(key) && unchanged(key.rdKey)
    ensures var E := CipherFn(t, old(key.Keys())); var iv := old(ToBlock(ivec[..])); var data := old(inp[..length]);
            && out[..Padded(length)] == CbcEnc(E, iv, data)
            && out[Padded(length)..] == old(out[Padded(length)..])
            && ToBlock(ivec[..]) == EncIv(E, iv, data)
  {
    hide XorBlock, ToBlock, ToBytes, PadBlock, Cipher, EncAt, CbcEnc, EncIv;
    ghost var E, iv0, data := CipherFn(t, key.Keys()), ToBlock(ivec[..]), inp[..length];
    var n := EncryptBlocks(t, key, inp, out, length, ivec);
    EncTail(E, iv0, data, n, out[..n], ToBlock(ivec[..]));
    if n < length {
      assert inp[n..length] == data[n..];
      ghost var was := out[..];
      ChainBlock(t, key, inp, n, length - n, out, ivec);
      Spliced(was, out[..], n, ToBytes(ToBlock(ivec[..])));
      assert old(out[n + 16..]) == old(out[n..])[16..];
    }
  }

  lemma {:induction false} EncStart(E: BlockFn, iv0: Block, data: seq<u8>)
    ensures EncAt(E, iv0, data, 0, [], iv0)
  {
    assert data[0..] == data;
  }

  lemma {:induction false} EncTail(E: BlockFn, iv0: Block, data: seq<u8>, n: nat, done: seq<u8>, iv: Block)
    requires EncAt(E, iv0, data, n, done, iv) && |data| - n < 16
    ensures n == |data| ==> Padded(|data|) == n && CbcEnc(E, iv0, data) == done && EncIv(E, iv0, data) == iv
    ensures n < |data| ==>
              var c := E(XorBlock(PadBlock(data[n..]), iv));
              Padded(|data|) == n + 16 && CbcEnc(E, iv0, data) == done + ToBytes(c) && EncIv(E, iv0, data) == c
  {
    hide XorBlock, ToBlock, ToBytes, PadBlock;
  }

  // ------------------------------------------------------- decryption, in place

  ghost predicate DecAt(D: BlockFn, iv0: Block, cipher: seq<u8>, length: nat, n: nat, done: seq<u8>, iv: Block) {
    && n <= length && n % 16 == 0 && |done| == n && Padded(length) <= |cipher| && Padded(length - n) <= |cipher| - n
    && CbcDec(D, iv0, cipher, length) == done + CbcDec(D, iv, cipher[n..], length - n)
    && DecIv(D, iv0, cipher, length) == DecIv(D, iv, cipher[n..], length - n)
  }

  lemma {:induction false} DecStart(D: BlockFn, iv0: Block, cipher: seq<u8>, length: nat)
    requires Padded(length) <= |cipher|
    ensures DecAt(D, iv0, cipher, length, 0, [], iv0)
  {
    assert cipher[0..] == cipher;
  }

  lemma {:induction false} DecStep(D: BlockFn, iv0: Block, cipher: seq<u8>, length: nat, n: nat, done: seq<u8>,
                                   iv: Block)
    requires DecAt(D, iv0, cipher, length, n, done, iv) && n + 16 <= length
    ensures n + 16 <= |cipher|
    ensures var c := ToBlock(cipher[n..n + 16]);
            DecAt(D, iv0, cipher, length, n + 16, done + ToBytes(XorBlock(D(c), iv)), c)
  {
    hide XorBlock, ToBlock, ToBytes;
    var c := ToBlock(cipher[n..n + 16]);
    var p := ToBytes(XorBlock(D(c), iv));
    assert cipher[n..][..16] == cipher[n..n + 16] && cipher[n..][16..] == cipher[n + 16..];
    assert length - n - 16 == length - (n + 16);
    assert (done + p) + CbcDec(D, c, cipher[n + 16..], length - n - 16)
           == done + (p + CbcDec(D, c, cipher[n + 16..], length - n - 16));
  }

  lemma {:induction false} DecTail(D: BlockFn, iv0: Block, cipher: seq<u8>, length: nat, n: nat, done: seq<u8>,
                                   iv: Block)
    requires DecAt(D, iv0, cipher, length, n, done, iv) && length - n < 16
    ensures n == length ==> CbcDec(D, iv0, cipher, length) == done && DecIv(D, iv0, cipher, length) == iv
    ensures n < length ==> n + 16 <= |cipher|
    ensures n < length ==>
              var c := ToBlock(cipher[n..n + 16]);
              CbcDec(D, iv0, cipher, length) == done + ToBytes(XorBlock(D(c), iv))[..length - n]
                && DecIv(D, iv0, cipher, length) == D(c)
  {
    hide XorBlock, ToBlock, ToBytes;
    if n < length { assert cipher[n..][..16] == cipher[n..n + 16]; }
  }

  /** A buffer after b has replaced its bytes from n on: what lies before, and what is left. */
  lemma {:induction false} Spliced(was: seq<u8>, now: seq<u8>, n: nat, b: seq<u8>)
    requires n + |b| <= |was| && now == was[..n] + b + was[n + |b|..]
    ensures |now| == |was| && now[..n + |b|] == was[..n] + b && now[n + |b|..] == was[n..][|b|..]
  {
  }

  /** out[n] ^= ivec[n] (aes.c:1299-1300). */
  method XorOver(out: array<u8>, o: nat, ivec: array<u8>)
    requires ivec.Length == 16 && o + 16 <= out.Length && ivec != out
    modifies out
    ensures out[..] == old(out[..o]) + XorBytes(old(out[o..o + 16]), ivec[..]) + old(out[o + 16..])
  {
    hide Xor;
    ghost var was, x := out[..], XorBytes(out[o..o + 16], ivec[..]);
    for n := 0 to 16
      invariant out[..] == was[..o] + x[..n] + was[o + n..]
    {
      OneMore(was, x, o, n);
      ghost var now := out[..];
      assert now[o + n] == was[o + n];
      out[o + n] := Xor(out[o + n], ivec[n]);
      assert out[..] == now[o + n := x[n]];
    }
  }

  /** A whole block (aes.c:1297-1301): the ciphertext is saved before it is overwritten. */
  method UnchainBlock(t: Sbox, key: AesKey, inp: array<u8>, n: nat, out: array<u8>, ivec: array<u8>)
    requires key.Ready() && n + 16 <= inp.Length && n + 16 <= out.Length && ivec.Length == 16
    requires ivec != inp && ivec != out && Apart(key, out, ivec)
    modifies out, ivec
    ensures unchanged(key) && unchanged(key.rdKey)
    ensures var c := old(ToBlock(inp[n..n + 16]));
            && out[..] == old(out[..n]) + ToBytes(XorBlock(EqInvCipher(t, old(key.Keys()), c), old(ToBlock(ivec[..]))))
                + old(out[n + 16..])
            && ToBlock(ivec[..]) == c
  {
    hide XorBlock, ToBlock, ToBytes, EqInvCipher, Xor;
    var tmp := new u8[16](_ => 0);
    Copy(inp, n, tmp);
    ghost var d := EqInvCipher(t, key.Keys(), ToBlock(inp[n..n + 16]));
    key.Decrypt(t, inp, n, out, n);
    assert out[n..n + 16] == ToBytes(d);
    ghost var iv := ivec[..];
    BlockXorBytes(d, ToBlock(iv));
    BytesRoundTrip(iv, d);
    XorOver(out, n, ivec);
    assert tmp[0..0 + 16] == tmp[..];
    Copy(tmp, 0, ivec);
  }

  /** The final partial block (aes.c:1306-1311). */
  method UnchainTail(t: Sbox, key: AesKey, inp: array<u8>, n: nat, len: nat, out: array<u8>, ivec: array<u8>)
    requires key.Ready() && len < 16 && n + 16 <= inp.Length && n + len <= out.Length && ivec.Length == 16
    requires ivec != inp && ivec != out && Apart(key, out, ivec)
    modifies out, ivec
    ensures unchanged(key) && unchanged(key.rdKey)
    ensures var d := EqInvCipher(t, old(key.Keys()), old(ToBlock(inp[n..n + 16])));
            && out[..] == old(out[..n]) + ToBytes(XorBlock(d, old(ToBlock(ivec[..]))))[..len] + old(out[n + len..])
            && ToBlock(ivec[..]) == d
  {
    hide XorBlock, ToBlock, ToBytes, EqInvCipher, Xor;
    var tmp := new u8[16](_ => 0);
    Copy(inp, n, tmp);
    ghost var d := EqInvCipher(t, key.Keys(), ToBlock(inp[n..n + 16]));
    assert tmp[0..0 + 16] == tmp[..];
    key.Decrypt(t, tmp, 0, tmp, 0);
    assert tmp[..] == ToBytes(d);
    BlockXorBytes(d, ToBlock(ivec[..]));
    BytesRoundTrip(ivec[..], d);
    XorTail(tmp, ivec, out, n, len);
    assert tmp[0..0 + 16] == tmp[..];
    Copy(tmp, 0, ivec);
  }

  /** out[n] = tmp[n] ^ ivec[n] for the bytes wanted (aes.c:1309-1310). */
  method XorTail(tmp: array<u8>, ivec: array<u8>, out: array<u8>, o: nat, len: nat)
    requires tmp.Length == 16 && ivec.Length == 16 && len <= 16 && o + len <= out.Length && tmp != out && ivec != out
    modifies out
    ensures out[..] == old(out[..o]) + XorBytes(tmp[..], ivec[..])[..len] + old(out[o + len..])
  {
    hide Xor;
    ghost var was, x := out[..], XorBytes(tmp[..], ivec[..]);
    for i := 0 to len
      invariant out[..] == was[..o] + x[..i] + was[o + i..]
    {
      out[o + i] := Xor(tmp[i], ivec[i]);
    }
  }

  /** The whole blocks of AES_cbc_encrypt with enc == 0 (aes.c:1296-1305). */
  method DecryptBlocks(t: Sbox, key: AesKey, inp: array<u8>, out: array<u8>, length: nat, ivec: array<u8>)
    returns (n: nat)
    requires key.Ready() && Padded(length) <= inp.Length && length <= out.Length && ivec.Length == 16
    requires ivec != inp && ivec != out && Apart(key, out, ivec)
    modifies out, ivec
    ensures unchanged(key) && unchanged(key.rdKey) && n <= length < n + 16
    ensures DecAt(DecipherFn(t, old(key.Keys())), old(ToBlock(ivec[..])), old(inp[..]), length, n, out[..n],
                  ToBlock(ivec[..]))
    ensures inp[n..] == old(inp[n..]) && out[n..] == old(out[n..])
  {
    hide XorBlock, ToBlock, ToBytes, EqInvCipher, DecAt, CbcDec, DecIv;
    ghost var D, iv0, cipher := DecipherFn(t, key.Keys()), ToBlock(ivec[..]), inp[..];
    DecStart(D, iv0, cipher, length);
    n := 0;
    assert out[..0] == [];
    while length - n >= 16
      invariant 0 <= n <= length && unchanged(key) && unchanged(key.rdKey)
      invariant DecAt(D, iv0, cipher, length, n, out[..n], ToBlock(ivec[..]))
      invariant inp[n..] == old(inp[n..]) && out[n..] == old(out[n..])
    {
      ghost var was, now, iv := out[..], inp[..], ToBlock(ivec[..]);
      DecStep(D, iv0, cipher, length, n, out[..n], iv);
      assert inp[n..n + 16] == inp[n..][..16] == cipher[n..n + 16];
      UnchainBlock(t, key, inp, n, out, ivec);
      Spliced(was, out[..], n, ToBytes(XorBlock(D(ToBlock(ivec[..])), iv)));
      assert inp[n + 16..] == now[n..][16..];
      n := n + 16;
    }
  }

  /** AES_cbc_encrypt with enc == 0 (aes.c:1295-1313), also in place. */
  method CbcDecrypt(t: Sbox, key: AesKey, inp: array<u8>, out: array<u8>, length: nat, ivec: array<u8>)
    requires key.Ready() && Padded(length) <= inp.Length && length <= out.Length && ivec.Length == 16
    requires ivec != inp && ivec != out && Apart(key, out, ivec)
    modifies out, ivec
    ensures unchanged(key) && unchanged(key.rdKey)
    ensures var D := DecipherFn(t, old(key.Keys())); var iv := old(ToBlock(ivec[..])); var cipher := old(inp[..]);
            && out[..length] == CbcDec(D, iv, cipher, length)
            && out[length..] == old(out[length..])
            && ToBlock(ivec[..]) == DecIv(D, iv, cipher, length)
  {
    hide XorBlock, ToBlock, ToBytes, EqInvCipher, DecAt, CbcDec, DecIv;
    ghost var D, iv0, cipher := DecipherFn(t, key.Keys()), ToBlock(ivec[..]), inp[..];
    var n := DecryptBlocks(t, key, inp, out, length, ivec);
    DecTail(D, iv0, cipher, length, n, out[..n], ToBlock(ivec[..]));
    if n < length {
      assert inp[n..n + 16] == inp[n..][..16] == cipher[n..n + 16];
      ghost var was, iv := out[..], ToBlock(ivec[..]);
      UnchainTail(t, key, inp, n, length - n, out, ivec);
      Spliced(was, out[..], n, ToBytes(XorBlock(ToBlock(ivec[..]), iv))[..length - n]);
      assert old(out[length..]) == old(out[n..])[length - n..];
    }
  }

  /** Under schedules of one key the two block functions satisfy what CbcRoundTrip asks. */
  lemma {:induction false} CipherUndone(t: Sbox, k: Schedule, dk: Schedule)
    requires t.Inverse() && IsDecryptSchedule(dk, k)
    ensures Undoes(DecipherFn(t, dk), CipherFn(t, k))
  {
    hide Cipher, EqInvCipher;
    forall b: Block ensures DecipherFn(t, dk)(CipherFn(t, k)(b)) == b { EqInvCipherDecrypts(t, k, dk, b); }
  }

  /** Bytes past the padded length are not looked at. */
  lemma {:induction false} CbcDecPrefix(D: BlockFn, iv: Block, cipher: seq<u8>, len: nat, m: nat)
    requires Padded(len) <= m <= |cipher|
    ensures CbcDec(D, iv, cipher, len) == CbcDec(D, iv, cipher[..m], len)
    decreases len
  {
    hide XorBlock, ToBlock, ToBytes;
    if len > 0 {
      assert cipher[..m][..16] == cipher[..16];
      if len >= 16 {
        assert cipher[..m][16..] == cipher[16..][..m - 16];
        CbcDecPrefix(D, ToBlock(cipher[..16]), cipher[16..], len - 16, m - 16);
      }
    }
  }

  /** Encrypting and decrypting in place in one buffer, from the same ivec. */
  method InPlace(t: Sbox, ek: AesKey, dk: AesKey, buf: array<u8>, length: nat, iv: seq<u8>)
    requires ek.Ready() && dk.Ready() && |iv| == 16 && Padded(length) <= buf.Length
    requires ek.rdKey as object != buf as object && dk.rdKey as object != buf as object
    requires Undoes(DecipherFn(t, dk.Keys()), CipherFn(t, ek.Keys()))
    modifies buf
    ensures buf[..length] == old(buf[..length]) && buf[Padded(length)..] == old(buf[Padded(length)..])
  {
    hide XorBlock, ToBlock, ToBytes, CbcEnc, CbcDec, EncIv, DecIv, Undoes, Cipher, EqInvCipher;
    ghost var E, D, data := CipherFn(t, ek.Keys()), DecipherFn(t, dk.Keys()), buf[..length];
    var ivec := new u8[16](i requires 0 <= i < 16 => iv[i]);
    assert ivec[..] == iv;
    CbcEncrypt(t, ek, buf, buf, length, ivec);
    CbcDecPrefix(D, ToBlock(iv), buf[..], length, Padded(length));
    CbcRoundTrip(E, D, ToBlock(iv), data);
    ghost var tail := buf[Padded(length)..];
    ivec := new u8[16](i requires 0 <= i < 16 => iv[i]);
    assert ivec[..] == iv;
    ghost var cut := Padded(length) - length;
    assert buf[length..][cut..] == tail;
    CbcDecrypt(t, dk, buf, buf, length, ivec);
    assert buf[length..][cut..] == buf[Padded(length)..];
  }

  /** The whole of it: one key set up for encryption and for decryption, and the data is itself again. */
  method EncryptAndDecrypt(t: Sbox, userKey: seq<u8>, bits: int, buf: array<u8>, length: nat, iv: seq<u8>)
    requires bits in {128, 192, 256} && |userKey| == bits / 8 && t.Inverse() && |iv| == 16
             && Padded(length) <= buf.Length
    modifies buf
    ensures buf[..length] == old(buf[..length]) && buf[Padded(length)..] == old(buf[Padded(length)..])
  {
    var ek := new AesKey();
    var dk := new AesKey();
    var status := ek.SetEncryptKey(t, Some(userKey), bits);
    status := dk.SetDecryptKey(t, Some(userKey), bits);
    hide KeySchedule, IsDecryptSchedule, Undoes, CipherFn, DecipherFn;
    CipherUndone(t, ek.Keys(), dk.Keys());
    InPlace(t, ek, dk, buf, length, iv);
  }

  // ------------------------------------------------------- ivecs that differ

  /** A block with one bit changed. */
  function Flipped(b: Block): Block { b.(w0 := b.w0.(b0 := Xor(b.w0.b0, 1))) }

  lemma {:induction false} FlipMoves(a: u8, b: u8)
    ensures Xor(a, Xor(b, 1)) != Xor(a, b)
  {
  }

  lemma {:induction false} RoundsPrefix(t: Sbox, k: Schedule, l: Schedule, s: Block, r: nat)
    requires r < |k| == |l| && forall i :: 0 <= i <= r ==> k[i] == l[i]
    ensures Rounds(t, k, s, r) == Rounds(t, l, s, r)
  {
    hide XorBlock, MixColumns, ShiftRows, SubBytes;
    if r > 0 { RoundsPrefix(t, k, l, s, r - 1); }
  }

  /** Changing one bit of the last round key changes every ciphertext block. */
  lemma {:induction false} LastKeyMatters(t: Sbox, k: Schedule, x: Block)
    requires |k| >= 2
    ensures Cipher(t, k, x) != Cipher(t, k[|k| - 1 := Flipped(k[|k| - 1])], x)
  {
    var n := |k| - 1;
    var l := k[n := Flipped(k[n])];
    RoundsPrefix(t, k, l, x, n - 1);
    var y := ShiftRows(SubBytes(t.S, Rounds(t, k, x, n - 1)));
    hide Xor, ShiftRows, SubBytes, Rounds;
    FlipMoves(y.w0.b0, k[n].w0.b0);
  }

  /** The two ivecs do differ under AES: for any short data and ivec, under any round keys or under the
      same with one bit of the last changed. */
  lemma {:induction false} IvCanDiffer(t: Sbox, k: Schedule, dk: Schedule, l: Schedule, dl: Schedule, iv: Block,
                                       data: seq<u8>)
    requires t.Inverse() && IsDecryptSchedule(dk, k) && IsDecryptSchedule(dl, l) && 0 < |data| < 16
    requires l == k[|k| - 1 := Flipped(k[|k| - 1])]
    ensures var E, D := CipherFn(t, k), DecipherFn(t, dk); var F, C := CipherFn(t, l), DecipherFn(t, dl);
            || DecIv(D, iv, CbcEnc(E, iv, data), |data|) != EncIv(E, iv, data)
            || DecIv(C, iv, CbcEnc(F, iv, data), |data|) != EncIv(F, iv, data)
  {
    CipherUndone(t, k, dk);
    CipherUndone(t, l, dl);
    LastKeyMatters(t, k, XorBlock(PadBlock(data), iv));
    hide XorBlock, PadBlock, Cipher, EqInvCipher, IsDecryptSchedule, Undoes, CbcEnc, DecIv, EncIv;
    NotBothFixed(CipherFn(t, k), DecipherFn(t, dk), CipherFn(t, l), DecipherFn(t, dl), iv, data);
  }

  lemma {:induction false} NotBothFixed(E: BlockFn, D: BlockFn, F: BlockFn, C: BlockFn, iv: Block, data: seq<u8>)
    requires Undoes(D, E) && Undoes(C, F) && 0 < |data| < 16
    requires E(XorBlock(PadBlock(data), iv)) != F(XorBlock(PadBlock(data), iv))
    ensures || DecIv(D, iv, CbcEnc(E, iv, data), |data|) != EncIv(E, iv, data)
            || DecIv(C, iv, CbcEnc(F, iv, data), |data|) != EncIv(F, iv, data)
  {
    hide XorBlock, PadBlock, LastChained, Undoes, CbcEnc, DecIv, EncIv;
    ShortChained(E, iv, data);
    ShortChained(F, iv, data);
    IvAgree(E, D, iv, data);
    IvAgree(F, C, iv, data);
  }
}
