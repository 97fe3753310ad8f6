/** The padded block codecs over an abstract block cipher: what they compute and exactly when they round trip. */
module CodecModel {
  import opened Bytes

  const BLOCK := 16

  datatype Cipher = Cipher(enc: seq<Byte> -> seq<Byte>, dec: seq<Byte> -> seq<Byte>)

  /** A keyed permutation of the 16-byte blocks and its inverse. */
  ghost predicate Permutation(c: Cipher) {
    && (forall b: seq<Byte> :: |b| == BLOCK ==> |c.enc(b)| == BLOCK && c.dec(c.enc(b)) == b)
    && (forall b: seq<Byte> :: |b| == BLOCK ==> |c.dec(b)| == BLOCK && c.enc(c.dec(b)) == b)
  }

  /** The cipher for every key, a permutation for each key of legal size. */
  type Family = seq<Byte> -> Cipher

  predicate LegalKey(key: seq<Byte>) {
    |key| == 16 || |key| == 24 || |key| == 32
  }

  ghost predicate Lawful(f: Family) {
    forall key :: LegalKey(key) ==> Permutation(f(key))
  }

  /** `Err` is a returned error, `Panic` a run-time panic. */
  datatype Result = Ok(bytes: seq<Byte>) | Err | Panic

  // ----- Modes -----

  /** Electronic codebook: each block on its own (section 6.1 of NIST SP 800-38A). */
  function MapBlocks(f: seq<Byte> -> seq<Byte>, s: seq<Byte>): seq<Byte>
    decreases |s|
  {
    if |s| < BLOCK then [] else f(s[..BLOCK]) + MapBlocks(f, s[BLOCK..])
  }

  function XorBlock(a: seq<Byte>, b: seq<Byte>): (r: seq<Byte>)
    requires |a| == |b|
    ensures |r| == |a|
  {
    seq(|a|, i requires 0 <= i < |a| => Xor(a[i], b[i]))
  }

  /** Cipher block chaining (section 6.2). */
  function CbcEncrypt(c: Cipher, iv: seq<Byte>, s: seq<Byte>): seq<Byte>
    requires |iv| == BLOCK
    decreases |s|
  {
    if |s| < BLOCK then []
    else
      var y := c.enc(XorBlock(s[..BLOCK], iv));
      if |y| != BLOCK then [] else y + CbcEncrypt(c, y, s[BLOCK..])
  }

  function CbcDecrypt(c: Cipher, iv: seq<Byte>, s: seq<Byte>): seq<Byte>
    requires |iv| == BLOCK
    decreases |s|
  {
    if |s| < BLOCK then []
    else
      var x := c.dec(s[..BLOCK]);
      if |x| != BLOCK then [] else XorBlock(x, iv) + CbcDecrypt(c, s[..BLOCK], s[BLOCK..])
  }

  lemma {:induction false} MapLength(f: seq<Byte> -> seq<Byte>, s: seq<Byte>)
    requires |s| % BLOCK == 0 && forall b: seq<Byte> :: |b| == BLOCK ==> |f(b)| == BLOCK
    ensures |MapBlocks(f, s)| == |s|
    decreases |s|
  {
    if |s| >= BLOCK {
      MapLength(f, s[BLOCK..]);
    }
  }

  lemma MapCat(f: seq<Byte> -> seq<Byte>, b: seq<Byte>, rest: seq<Byte>)
    requires |b| == BLOCK
    ensures MapBlocks(f, b + rest) == f(b) + MapBlocks(f, rest)
  {
    assert (b + rest)[..BLOCK] == b && (b + rest)[BLOCK..] == rest;
  }

  lemma {:induction false} MapInverse(f: seq<Byte> -> seq<Byte>, g: seq<Byte> -> seq<Byte>, s: seq<Byte>)
    requires |s| % BLOCK == 0 && forall b: seq<Byte> :: |b| == BLOCK ==> |f(b)| == BLOCK && g(f(b)) == b
    ensures |MapBlocks(f, s)| == |s| && MapBlocks(g, MapBlocks(f, s)) == s
    decreases |s|
  {
    hide MapBlocks;
    if |s| < BLOCK {
      MapEmpty(f);
      MapEmpty(g);
      assert s == [];
    } else {
      var b, rest := s[..BLOCK], s[BLOCK..];
      MapInverse(f, g, rest);
      MapCat(f, b, rest);
      MapCat(g, f(b), MapBlocks(f, rest));
      assert s == b + rest;
    }
  }

  lemma MapEmpty(f: seq<Byte> -> seq<Byte>)
    ensures MapBlocks(f, []) == []
  {
  }

  lemma XorBlockTwice(a: seq<Byte>, b: seq<Byte>)
    requires |a| == |b|
    ensures XorBlock(XorBlock(a, b), b) == a
  {
    forall i | 0 <= i < |a| ensures XorBlock(XorBlock(a, b), b)[i] == a[i] {
      XorTwice(a[i], b[i]);
    }
  }

  lemma {:induction false} CbcInverse(c: Cipher, iv: seq<Byte>, s: seq<Byte>)
    requires Permutation(c) && |iv| == BLOCK && |s| % BLOCK == 0
    ensures |CbcEncrypt(c, iv, s)| == |s| && CbcDecrypt(c, iv, CbcEncrypt(c, iv, s)) == s
    decreases |s|
  {
    hide CbcEncrypt, CbcDecrypt, XorBlock;
    if |s| < BLOCK {
      CbcEmpty(c, iv);
      assert s == [];
    } else {
      var b, rest := s[..BLOCK], s[BLOCK..];
      var y := c.enc(XorBlock(b, iv));
      CbcInverse(c, y, rest);
      EncryptCat(c, iv, b, rest);
      DecryptCat(c, iv, y, CbcEncrypt(c, y, rest));
      XorBlockTwice(b, iv);
      assert s == b + rest;
    }
  }

  lemma CbcEmpty(c: Cipher, iv: seq<Byte>)
    requires |iv| == BLOCK
    ensures CbcEncrypt(c, iv, []) == [] && CbcDecrypt(c, iv, []) == []
  {
  }

  lemma EncryptCat(c: Cipher, iv: seq<Byte>, b: seq<Byte>, rest: seq<Byte>)
    requires |iv| == |b| == BLOCK && |c.enc(XorBlock(b, iv))| == BLOCK
    ensures var y := c.enc(XorBlock(b, iv)); CbcEncrypt(c, iv, b + rest) == y + CbcEncrypt(c, y, rest)
  {
    assert (b + rest)[..BLOCK] == b && (b + rest)[BLOCK..] == rest;
  }

  lemma DecryptCat(c: Cipher, iv: seq<Byte>, y: seq<Byte>, rest: seq<Byte>)
    requires |iv| == BLOCK && |y| == BLOCK && |c.dec(y)| == BLOCK
    ensures CbcDecrypt(c, iv, y + rest) == XorBlock(c.dec(y), iv) + CbcDecrypt(c, y, rest)
  {
    assert (y + rest)[..BLOCK] == y && (y + rest)[BLOCK..] == rest;
  }

  // ----- Block by block -----

  /** The `j`-th block. */
  function BlockAt(s: seq<Byte>, j: nat): (b: seq<Byte>)
    requires 16 * j + 16 <= |s|
    ensures |b| == 16
  {
    s[16 * j..16 * j + 16]
  }

  lemma BlockAfter(b: seq<Byte>, rest: seq<Byte>, j: nat)
    requires |b| == 16 && 16 * j + 16 <= |rest|
    ensures BlockAt(b + rest, j + 1) == BlockAt(rest, j) && BlockAt(b + rest, 0) == b
  {
    assert (b + rest)[16 * (j + 1)..16 * (j + 1) + 16] == rest[16 * j..16 * j + 16];
  }

  /** Block `j` of the result is the cipher of block `j`. */
  lemma {:induction false} MapBlockAt(f: seq<Byte> -> seq<Byte>, s: seq<Byte>, j: nat)
    requires |s| % BLOCK == 0 && forall b: seq<Byte> :: |b| == BLOCK ==> |f(b)| == BLOCK
    requires 16 * j + 16 <= |s|
    ensures |MapBlocks(f, s)| == |s| && BlockAt(MapBlocks(f, s), j) == f(BlockAt(s, j))
    decreases |s|
  {
    var b, rest := s[..BLOCK], s[BLOCK..];
    MapLength(f, rest);
    assert s == b + rest && MapBlocks(f, s) == f(b) + MapBlocks(f, rest);
    if j > 0 {
      MapBlockAt(f, rest, j - 1);
      BlockAfter(b, rest, j - 1);
      BlockAfter(f(b), MapBlocks(f, rest), j - 1);
    }
  }

  /** `x` is, bit by bit, the exclusive or of `a` and `b`. */
  predicate BitwiseXor(x: seq<Byte>, a: seq<Byte>, b: seq<Byte>) {
    |x| == |a| == |b| &&
    forall i, k :: 0 <= i < |a| && 0 <= k < 8 ==> Bit(x[i], k) == if Bit(a[i], k) != Bit(b[i], k) then 1 else 0
  }

  lemma XorBlockBits(a: seq<Byte>, b: seq<Byte>)
    requires |a| == |b|
    ensures BitwiseXor(XorBlock(a, b), a, b)
  {
    forall i, k | 0 <= i < |a| && 0 <= k < 8
      ensures Bit(XorBlock(a, b)[i], k) == if Bit(a[i], k) != Bit(b[i], k) then 1 else 0
    {
      XorBit(a[i], b[i], k);
    }
  }

  /** Ciphertext block `j` is the cipher of the bitwise difference of text block `j` and ciphertext block `j - 1`, or
      the initialisation vector. */
  lemma CbcBlockAt(c: Cipher, iv: seq<Byte>, s: seq<Byte>, j: nat)
    requires Permutation(c) && |iv| == BLOCK && |s| % BLOCK == 0 && 16 * j + 16 <= |s|
    ensures |CbcEncrypt(c, iv, s)| == |s|
    ensures var y := CbcEncrypt(c, iv, s);
            exists x ::
              BitwiseXor(x, BlockAt(s, j), if j == 0 then iv else BlockAt(y, j - 1)) && BlockAt(y, j) == c.enc(x)
  {
    CbcChained(c, iv, s, j);
  }

  ghost predicate Follows(c: Cipher, iv: seq<Byte>, s: seq<Byte>, y: seq<Byte>, j: nat) {
    |y| == |s| && 16 * j + 16 <= |s| &&
    exists x :: BitwiseXor(x, BlockAt(s, j), if j == 0 then iv else BlockAt(y, j - 1)) && BlockAt(y, j) == c.enc(x)
  }

  lemma {:induction false} CbcChained(c: Cipher, iv: seq<Byte>, s: seq<Byte>, j: nat)
    requires Permutation(c) && |iv| == BLOCK && |s| % BLOCK == 0 && 16 * j + 16 <= |s|
    ensures Follows(c, iv, s, CbcEncrypt(c, iv, s), j)
    decreases |s|
  {
    hide CbcEncrypt, Permutation, Follows, BitwiseXor;
    var b, rest := s[..BLOCK], s[BLOCK..];
    var y, ys := CbcFirst(c, iv, b, rest);
    assert s == b + rest;
    if j == 0 {
      FollowsFirst(c, iv, b, rest, y, ys);
    } else {
      CbcChained(c, y, rest, j - 1);
      FollowsAfter(c, iv, b, rest, y, ys, j - 1);
    }
  }

  lemma FollowsFirst(c: Cipher, iv: seq<Byte>, b: seq<Byte>, rest: seq<Byte>, y: seq<Byte>, ys: seq<Byte>)
    requires |b| == |y| == 16 && |ys| == |rest| && exists x :: BitwiseXor(x, b, iv) && y == c.enc(x)
    ensures Follows(c, iv, b + rest, y + ys, 0)
  {
    hide BitwiseXor, BlockAt;
    FirstBlock(b, rest);
    FirstBlock(y, ys);
  }

  lemma FollowsAfter(c: Cipher, iv: seq<Byte>, b: seq<Byte>, rest: seq<Byte>, y: seq<Byte>, ys: seq<Byte>, j: nat)
    requires |b| == |y| == 16 && Follows(c, y, rest, ys, j)
    ensures Follows(c, iv, b + rest, y + ys, j + 1)
  {
    hide BitwiseXor, BlockAt;
    BlockAfter(b, rest, j);
    BlockAfter(y, ys, j);
    if j > 0 {
      BlockAfter(y, ys, j - 1);
    }
  }

  lemma FirstBlock(b: seq<Byte>, rest: seq<Byte>)
    requires |b| == 16
    ensures BlockAt(b + rest, 0) == b
  {
  }

  lemma CbcFirst(c: Cipher, iv: seq<Byte>, b: seq<Byte>, rest: seq<Byte>) returns (y: seq<Byte>, ys: seq<Byte>)
    requires Permutation(c) && |iv| == |b| == BLOCK && |rest| % BLOCK == 0
    ensures |y| == BLOCK && |ys| == |rest| && exists x :: BitwiseXor(x, b, iv) && y == c.enc(x)
    ensures CbcEncrypt(c, iv, b + rest) == y + ys && ys == CbcEncrypt(c, y, rest)
  {
    hide BitwiseXor, CbcDecrypt, XorBlock;
    XorBlockBits(b, iv);
    y := c.enc(XorBlock(b, iv));
    ys := CbcEncrypt(c, y, rest);
    CbcInverse(c, y, rest);
    assert (b + rest)[..BLOCK] == b && (b + rest)[BLOCK..] == rest;
  }

  /** Text block `j` is the bitwise difference of the decrypted ciphertext block `j` and ciphertext block `j - 1`, or
      the initialisation vector. */
  lemma CbcTextAt(c: Cipher, iv: seq<Byte>, y: seq<Byte>, j: nat)
    requires Permutation(c) && |iv| == BLOCK && |y| % BLOCK == 0 && 16 * j + 16 <= |y|
    ensures |CbcDecrypt(c, iv, y)| == |y|
    ensures BitwiseXor(BlockAt(CbcDecrypt(c, iv, y), j), c.dec(BlockAt(y, j)), if j == 0 then iv else BlockAt(y, j - 1))
  {
    TextChained(c, iv, y, j);
  }

  predicate TextFollows(c: Cipher, iv: seq<Byte>, y: seq<Byte>, x: seq<Byte>, j: nat) {
    |y| == |x| && 16 * j + 16 <= |y| &&
    BitwiseXor(BlockAt(x, j), c.dec(BlockAt(y, j)), if j == 0 then iv else BlockAt(y, j - 1))
  }

  lemma {:induction false} TextChained(c: Cipher, iv: seq<Byte>, y: seq<Byte>, j: nat)
    requires Permutation(c) && |iv| == BLOCK && |y| % BLOCK == 0 && 16 * j + 16 <= |y|
    ensures TextFollows(c, iv, y, CbcDecrypt(c, iv, y), j)
    decreases |y|
  {
    hide CbcDecrypt, Permutation, TextFollows, BitwiseXor, XorBlock;
    var b, rest := y[..BLOCK], y[BLOCK..];
    var x, xs := TextFirst(c, iv, b, rest);
    assert y == b + rest;
    if j == 0 {
      TextFollowsFirst(c, iv, b, rest, x, xs);
    } else {
      TextChained(c, b, rest, j - 1);
      TextFollowsAfter(c, iv, b, rest, x, xs, j - 1);
    }
  }

  lemma TextFirst(c: Cipher, iv: seq<Byte>, b: seq<Byte>, rest: seq<Byte>) returns (x: seq<Byte>, xs: seq<Byte>)
    requires Permutation(c) && |iv| == |b| == BLOCK && |rest| % BLOCK == 0
    ensures CbcDecrypt(c, iv, b + rest) == x + xs && xs == CbcDecrypt(c, b, rest)
    ensures |x| == BLOCK && |xs| == |rest| && BitwiseXor(x, c.dec(b), iv)
  {
    hide BitwiseXor, CbcDecrypt;
    x, xs := XorBlock(c.dec(b), iv), CbcDecrypt(c, b, rest);
    XorBlockBits(c.dec(b), iv);
    DecryptCat(c, iv, b, rest);
    CbcTextLength(c, b, rest);
  }

  lemma TextFollowsFirst(c: Cipher, iv: seq<Byte>, b: seq<Byte>, rest: seq<Byte>, x: seq<Byte>, xs: seq<Byte>)
    requires |b| == |x| == 16 && |xs| == |rest| && BitwiseXor(x, c.dec(b), iv)
    ensures TextFollows(c, iv, b + rest, x + xs, 0)
  {
    hide BitwiseXor, BlockAt;
    FirstBlock(b, rest);
    FirstBlock(x, xs);
  }

  lemma TextFollowsAfter(c: Cipher, iv: seq<Byte>, b: seq<Byte>, rest: seq<Byte>, x: seq<Byte>, xs: seq<Byte>, j: nat)
    requires |b| == |x| == 16 && TextFollows(c, b, rest, xs, j)
    ensures TextFollows(c, iv, b + rest, x + xs, j + 1)
  {
    hide BitwiseXor, BlockAt;
    BlockAfter(b, rest, j);
    BlockAfter(x, xs, j);
    if j > 0 {
      BlockAfter(b, rest, j - 1);
    }
  }

  lemma {:induction false} CbcTextLength(c: Cipher, iv: seq<Byte>, y: seq<Byte>)
    requires Permutation(c) && |iv| == BLOCK && |y| % BLOCK == 0
    ensures |CbcDecrypt(c, iv, y)| == |y|
    decreases |y|
  {
    if |y| >= BLOCK {
      CbcTextLength(c, y[..BLOCK], y[BLOCK..]);
    }
  }

  // ----- PKCS padding (section 6.3 of RFC 5652) -----

  function PadLength(n: nat, blockSize: nat): nat
    requires blockSize > 0
  {
    blockSize - n % blockSize
  }

  /** Padding by the number of padding bytes, which is truncated to a byte. */
  function Pad(s: seq<Byte>, blockSize: nat): seq<Byte>
    requires blockSize > 0
  {
    s + seq(PadLength(|s|, blockSize), _ => PadLength(|s|, blockSize) % 256)
  }

  /** Removal: only the last byte is looked at; nothing may be left over only as an error. */
  function Unpad(s: seq<Byte>): Result {
    if s == [] then Panic
    else
      var n := |s| - s[|s| - 1];
      if n <= 0 then Err else Ok(s[..n])
  }

  lemma PadMultiple(s: seq<Byte>)
    ensures 1 <= PadLength(|s|, BLOCK) <= BLOCK && |Pad(s, BLOCK)| == |s| + PadLength(|s|, BLOCK)
    ensures |Pad(s, BLOCK)| % BLOCK == 0 && Pad(s, BLOCK) != []
    ensures Pad(s, BLOCK)[..|s|] == s && Pad(s, BLOCK)[|Pad(s, BLOCK)| - 1] == PadLength(|s|, BLOCK)
  {
  }

  /** Padding leaves the text in front and adds, to the next multiple of 16, one to 16 bytes, each their number. */
  lemma PadBytes(s: seq<Byte>)
    ensures var p := Pad(s, 16);
            && |s| < |p| <= |s| + 16 && |p| % 16 == 0 && p[..|s|] == s
            && forall i :: |s| <= i < |p| ==> p[i] == |p| - |s|
  {
    PadMultiple(s);
  }

  /** Removal takes off as many bytes as the last byte says, and refuses to leave nothing. */
  lemma UnpadBytes(s: seq<Byte>)
    requires s != []
    ensures var n := s[|s| - 1];
            Unpad(s) == if n >= |s| then Err else Ok(s[..|s| - n])
  {
  }

  /** Removal undoes padding exactly when the text is not empty and the padding length fits a byte. */
  lemma PadExact(s: seq<Byte>, blockSize: nat)
    requires blockSize > 0
    ensures Unpad(Pad(s, blockSize)) == Ok(s) <==> s != [] && PadLength(|s|, blockSize) < 256
  {
    assert 0 <= |s| % blockSize < blockSize;
    var k := PadLength(|s|, blockSize);
    var p := Pad(s, blockSize);
    assert p[|p| - 1] == k % 256;
    if k >= 256 {
      assert |s| + k - k % 256 > |s|;
      assert Unpad(p).Ok? && |Unpad(p).bytes| > |s|;
    } else {
      assert p[..|s|] == s;
    }
  }

  /** A whole number of blocks is what padding its own removal gives exactly when it ends in `k` bytes `k`, 1 to 16. */
  lemma UnpadExact(d: seq<Byte>)
    requires d != [] && |d| % BLOCK == 0 && Unpad(d).Ok?
    ensures var k := d[|d| - 1];
            Pad(Unpad(d).bytes, BLOCK) == d <==> 1 <= k <= BLOCK && forall i :: |d| - k <= i < |d| ==> d[i] == k
  {
    var k := d[|d| - 1];
    var p := Unpad(d).bytes;
    PadMultiple(p);
    if Pad(p, BLOCK) == d {
      assert |Pad(p, BLOCK)| == |p| + PadLength(|p|, BLOCK);
    }
    if 1 <= k <= BLOCK {
      assert PadLength(|p|, BLOCK) == k;
      assert d == d[..|p|] + d[|p|..];
    }
  }

  // ----- The exported pairs -----

  function EcbPkcsEncrypt(f: Family, src: seq<Byte>, key: seq<Byte>): Result {
    if src == [] || !LegalKey(key) then Err
    else Ok(MapBlocks(f(key).enc, Pad(src, BLOCK)))
  }

  function EcbPkcsDecrypt(f: Family, crypted: seq<Byte>, key: seq<Byte>): Result {
    if !LegalKey(key) then Err
    else if |crypted| % BLOCK != 0 then Panic
    else Unpad(MapBlocks(f(key).dec, crypted))
  }

  /** ECB with padding: every non-empty text comes back; the empty one is refused. */
  lemma EcbPkcsRoundTrip(f: Family, p: seq<Byte>, key: seq<Byte>)
    requires Lawful(f) && LegalKey(key)
    ensures var r := EcbPkcsEncrypt(f, p, key);
            if p == [] then r == Err else r.Ok? && EcbPkcsDecrypt(f, r.bytes, key) == Ok(p)
  {
    hide MapBlocks;
    var c := f(key);
    PadMultiple(p);
    PadExact(p, BLOCK);
    MapInverse(c.enc, c.dec, Pad(p, BLOCK));
  }

  /** Encrypting what was decrypted restores the ciphertext exactly when the decrypted blocks are properly padded. */
  lemma EcbPkcsRestores(f: Family, y: seq<Byte>, key: seq<Byte>)
    requires Lawful(f) && LegalKey(key) && EcbPkcsDecrypt(f, y, key).Ok?
    ensures var d := MapBlocks(f(key).dec, y);
            var p := EcbPkcsDecrypt(f, y, key).bytes;
            d != [] && |d| == |y| &&
            (EcbPkcsEncrypt(f, p, key) == Ok(y) <==>
             1 <= d[|d| - 1] <= BLOCK && forall i :: |d| - d[|d| - 1] <= i < |d| ==> d[i] == d[|d| - 1])
  {
    hide MapBlocks, Pad;
    var c := f(key);
    var d := MapBlocks(c.dec, y);
    MapInverse(c.dec, c.enc, y);
    var p := EcbPkcsDecrypt(f, y, key).bytes;
    assert p == Unpad(d).bytes && p != [];
    UnpadExact(d);
    PadMultiple(p);
    MapInverse(c.enc, c.dec, Pad(p, BLOCK));
  }

  /** The initialisation vector: the front of the given key, or of the cipher key when none is given. */
  datatype Iv = NoIv | Iv(bytes: seq<Byte>)

  function IvBytes(ikey: Iv, key: seq<Byte>): seq<Byte> {
    if ikey.NoIv? then key else ikey.bytes
  }

  function CbcPkcsEncrypt(f: Family, p: seq<Byte>, key: seq<Byte>, ikey: Iv): Result {
    if !LegalKey(key) then Err
    else if |IvBytes(ikey, key)| < BLOCK then Panic
    else Ok(CbcEncrypt(f(key), IvBytes(ikey, key)[..BLOCK], Pad(p, BLOCK)))
  }

  function CbcPkcsDecrypt(f: Family, y: seq<Byte>, key: seq<Byte>, ikey: Iv): Result {
    if !LegalKey(key) then Err
    else if |IvBytes(ikey, key)| < BLOCK || |y| % BLOCK != 0 then Panic
    else Unpad(CbcDecrypt(f(key), IvBytes(ikey, key)[..BLOCK], y))
  }

  /** A given vector is used from its first 16 bytes on, a missing one is the front of the key; a key of illegal size is
      an error, a short vector a panic. */
  lemma CbcUsesIv(f: Family, p: seq<Byte>, key: seq<Byte>, iv: seq<Byte>)
    ensures LegalKey(key) <==> |key| == 16 || |key| == 24 || |key| == 32
    ensures CbcPkcsEncrypt(f, p, key, Iv(iv)) ==
            if |key| != 16 && |key| != 24 && |key| != 32 then Err
            else if |iv| < 16 then Panic else Ok(CbcEncrypt(f(key), iv[..16], Pad(p, 16)))
    ensures CbcPkcsEncrypt(f, p, key, NoIv) ==
            if |key| != 16 && |key| != 24 && |key| != 32 then Err
            else Ok(CbcEncrypt(f(key), key[..16], Pad(p, 16)))
    ensures CbcPkcsDecrypt(f, p, key, Iv(iv)) ==
            if |key| != 16 && |key| != 24 && |key| != 32 then Err
            else if |iv| < 16 || |p| % 16 != 0 then Panic else Unpad(CbcDecrypt(f(key), iv[..16], p))
    ensures CbcPkcsDecrypt(f, p, key, NoIv) ==
            if |key| != 16 && |key| != 24 && |key| != 32 then Err
            else if |p| % 16 != 0 then Panic else Unpad(CbcDecrypt(f(key), key[..16], p))
  {
  }

  /** CBC with padding: every text encrypts, and comes back exactly when it is not empty. */
  lemma CbcPkcsRoundTrip(f: Family, p: seq<Byte>, key: seq<Byte>, ikey: Iv)
    requires Lawful(f) && LegalKey(key) && |IvBytes(ikey, key)| >= BLOCK
    ensures var r := CbcPkcsEncrypt(f, p, key, ikey);
            r.Ok? && CbcPkcsDecrypt(f, r.bytes, key, ikey) == if p == [] then Err else Ok(p)
  {
    hide CbcEncrypt, CbcDecrypt, Pad, Unpad;
    PadMultiple(p);
    UnpadPad(p);
    CbcInverse(f(key), IvBytes(ikey, key)[..BLOCK], Pad(p, BLOCK));
  }

  lemma UnpadPad(p: seq<Byte>)
    ensures Unpad(Pad(p, BLOCK)) == if p == [] then Err else Ok(p)
  {
    PadExact(p, BLOCK);
    if p == [] {
      assert Pad(p, BLOCK)[BLOCK - 1] == BLOCK;
    }
  }

  // ----- The append-based pair -----

  /** Uses the first 16 bytes of the key, whatever its length. */
  function ChenEncrypt(f: Family, s: seq<Byte>, key: seq<Byte>): Result {
    if |key| < BLOCK || |s| % BLOCK != 0 then Panic else Ok(MapBlocks(f(key[..BLOCK]).enc, s))
  }

  function ChenDecrypt(f: Family, s: seq<Byte>, key: seq<Byte>): Result {
    if |key| < BLOCK || |s| % BLOCK != 0 then Panic else Ok(MapBlocks(f(key[..BLOCK]).dec, s))
  }

  /** `PKCS7UPad`: no check beyond the slice bounds. */
  function ChenUnpad(s: seq<Byte>): Result {
    if s == [] || |s| - s[|s| - 1] < 0 then Panic else Ok(s[..|s| - s[|s| - 1]])
  }

  lemma ChenUnpadBytes(s: seq<Byte>)
    requires s != []
    ensures var n := s[|s| - 1]; ChenUnpad(s) == if n > |s| then Panic else Ok(s[..|s| - n])
  {
  }

  /** The two implementations agree on every non-empty text, on the key they both use. */
  lemma ChenAgrees(f: Family, p: seq<Byte>, key: seq<Byte>)
    requires p != [] && |key| >= BLOCK
    ensures ChenEncrypt(f, Pad(p, BLOCK), key) == EcbPkcsEncrypt(f, p, key[..BLOCK])
  {
    PadMultiple(p);
  }

  /** The append-based pair restores every text, the empty one included. */
  lemma ChenRoundTrip(f: Family, p: seq<Byte>, key: seq<Byte>)
    requires Lawful(f) && |key| >= BLOCK
    ensures var y := ChenEncrypt(f, Pad(p, BLOCK), key);
            y.Ok? && ChenDecrypt(f, y.bytes, key).Ok? && ChenUnpad(ChenDecrypt(f, y.bytes, key).bytes) == Ok(p)
  {
    hide MapBlocks, Pad;
    var c := f(key[..BLOCK]);
    PadMultiple(p);
    MapInverse(c.enc, c.dec, Pad(p, BLOCK));
  }

  // ----- Zero padding -----

  function Zeros(n: nat): seq<Byte> {
    seq(n, _ => 0)
  }

  function ZeroPad(s: seq<Byte>): seq<Byte> {
    if |s| % BLOCK == 0 then s else s + Zeros(BLOCK - |s| % BLOCK)
  }

  predicate AllZero(s: seq<Byte>) {
    forall i :: 0 <= i < |s| ==> s[i] == 0
  }

  /** The length without trailing zeros. */
  function Stripped(s: seq<Byte>): (n: nat)
    ensures n <= |s| && AllZero(s[n..]) && (n > 0 ==> s[n - 1] != 0)
  {
    if s == [] || s[|s| - 1] != 0 then |s|
    else
      var n := Stripped(s[..|s| - 1]);
      assert s[n..] == s[..|s| - 1][n..] + [s[|s| - 1]];
      n
  }

  /** Trailing zeros are removed, unless the last 16 bytes are all zero or there are fewer than 16 bytes. */
  function ZeroUnpad(s: seq<Byte>): seq<Byte> {
    if |s| < BLOCK || AllZero(s[|s| - BLOCK..]) then s else s[..Stripped(s)]
  }

  function ZeroEncrypt(f: Family, p: seq<Byte>, key: seq<Byte>): Result {
    if !LegalKey(key) then Err else Ok(MapBlocks(f(key).enc, ZeroPad(p)))
  }

  function ZeroDecrypt(f: Family, y: seq<Byte>, key: seq<Byte>): Result {
    if !LegalKey(key) then Err
    else if |y| % BLOCK != 0 then Panic
    else Ok(ZeroUnpad(MapBlocks(f(key).dec, y)))
  }

  /** The texts that zero padding restores. */
  predicate Restorable(p: seq<Byte>) {
    p == [] || p[|p| - 1] != 0 || (|p| % BLOCK == 0 && AllZero(p[|p| - BLOCK..]))
  }

  lemma ZeroPadShape(p: seq<Byte>)
    requires p != []
    ensures var q := ZeroPad(p);
            && |q| >= BLOCK && |q| % BLOCK == 0 && |p| <= |q| < |p| + BLOCK && q[..|p|] == p && AllZero(q[|p|..])
            && (q == p <==> |p| % BLOCK == 0)
  {
  }

  /** Fewer than 16 bytes, and bytes of which the last 16 are zero, are left alone; else the trailing zeros go. */
  lemma ZeroUnpadBytes(s: seq<Byte>)
    ensures var r := ZeroUnpad(s);
            if |s| < 16 || (forall i :: |s| - 16 <= i < |s| ==> s[i] == 0) then r == s
            else
              && 0 < |r| <= |s| && r == s[..|r|] && r[|r| - 1] != 0
              && forall i :: |r| <= i < |s| ==> s[i] == 0
  {
    if |s| >= 16 {
      ZeroTail(s, |s| - 16);
      ZeroTail(s, Stripped(s));
    }
  }

  lemma ZeroUnpadExact(p: seq<Byte>)
    ensures ZeroUnpad(ZeroPad(p)) == p <==> Restorable(p)
  {
    hide ZeroPad;
    if p == [] {
      ZeroPadEmpty();
    } else {
      var q := ZeroPad(p);
      ZeroPadShape(p);
      ZeroTail(q, |p|);
      ZeroTail(q, |q| - BLOCK);
      assert q[|p| - 1] == p[|p| - 1];
      if p[|p| - 1] != 0 {
        StrippedAt(q, |p|);
      } else {
        StrippedBefore(q, |p|);
      }
    }
  }

  lemma ZeroPadWhole(p: seq<Byte>)
    ensures |ZeroPad(p)| % BLOCK == 0
  {
  }

  lemma ZeroPadEmpty()
    ensures ZeroPad([]) == [] && ZeroUnpad([]) == []
  {
  }

  /** Zeros after a non-zero byte are what gets stripped. */
  lemma StrippedAt(q: seq<Byte>, n: nat)
    requires 0 < n <= |q| && q[n - 1] != 0 && AllZero(q[n..])
    ensures Stripped(q) == n
  {
    ZeroTail(q, n);
    ZeroTail(q, Stripped(q));
  }

  lemma ZeroTail(q: seq<Byte>, n: nat)
    requires n <= |q|
    ensures AllZero(q[n..]) <==> forall i :: n <= i < |q| ==> q[i] == 0
  {
    assert forall i :: n <= i < |q| ==> q[i] == q[n..][i - n];
    assert forall j :: 0 <= j < |q| - n ==> q[n..][j] == q[n + j];
  }

  lemma StrippedBefore(q: seq<Byte>, n: nat)
    requires 0 < n <= |q| && q[n - 1] == 0 && AllZero(q[n..])
    ensures Stripped(q) < n
  {
    ZeroTail(q, n);
  }

  /** Zero padding round trips exactly on the empty text, on texts whose last byte is not zero, and on whole blocks
      the last of which is all zero. */
  lemma ZeroRoundTrip(f: Family, p: seq<Byte>, key: seq<Byte>)
    requires Lawful(f) && LegalKey(key)
    ensures var r := ZeroEncrypt(f, p, key);
            r.Ok? && (ZeroDecrypt(f, r.bytes, key) == Ok(p) <==> Restorable(p))
  {
    hide MapBlocks, ZeroPad, ZeroUnpad, Restorable;
    var c := f(key);
    ZeroPadWhole(p);
    MapInverse(c.enc, c.dec, ZeroPad(p));
    ZeroUnpadExact(p);
  }

  // ----- The exported pairs, block by block -----

  /** Each block of an ECB ciphertext is the cipher, under the whole key, of that block of the padded text. */
  lemma EcbBlocks(f: Family, p: seq<Byte>, key: seq<Byte>, j: nat)
    requires Lawful(f)
    ensures var r, d := EcbPkcsEncrypt(f, p, key), Pad(p, 16);
            if p == [] || (|key| != 16 && |key| != 24 && |key| != 32) then r == Err
            else
              r.Ok? && |r.bytes| == |d| && (16 * j + 16 <= |d| ==> BlockAt(r.bytes, j) == f(key).enc(BlockAt(d, j)))
  {
    hide MapBlocks, Pad;
    PadMultiple(p);
    if LegalKey(key) {
      MapLength(f(key).enc, Pad(p, 16));
      if 16 * j + 16 <= |Pad(p, 16)| {
        MapBlockAt(f(key).enc, Pad(p, 16), j);
      }
    }
  }

  /** What decryption removes the padding from: each block is the inverse cipher of that block of the ciphertext. */
  lemma EcbTextBlocks(f: Family, y: seq<Byte>, key: seq<Byte>) returns (d: seq<Byte>)
    requires Lawful(f)
    ensures if |key| != 16 && |key| != 24 && |key| != 32 then EcbPkcsDecrypt(f, y, key) == Err
            else if |y| % 16 != 0 then EcbPkcsDecrypt(f, y, key) == Panic
            else
              && |d| == |y| && EcbPkcsDecrypt(f, y, key) == Unpad(d)
              && forall j: nat :: 16 * j + 16 <= |y| ==> BlockAt(d, j) == f(key).dec(BlockAt(y, j))
  {
    d := TextBlocks(f, y, key);
  }

  lemma TextBlocks(f: Family, y: seq<Byte>, key: seq<Byte>) returns (d: seq<Byte>)
    requires Lawful(f)
    ensures LegalKey(key) && |y| % 16 == 0 ==>
              && |d| == |y| && d == MapBlocks(f(key).dec, y)
              && forall j: nat :: 16 * j + 16 <= |y| ==> BlockAt(d, j) == f(key).dec(BlockAt(y, j))
  {
    hide MapBlocks;
    d := [];
    if LegalKey(key) && |y| % 16 == 0 {
      d := MapBlocks(f(key).dec, y);
      MapLength(f(key).dec, y);
      forall j: nat | 16 * j + 16 <= |y| ensures BlockAt(d, j) == f(key).dec(BlockAt(y, j)) {
        MapBlockAt(f(key).dec, y, j);
      }
    }
  }

  /** The same with zero padding: the text, then fewer than 16 zeros, to whole blocks. */
  lemma ZeroBlocks(f: Family, p: seq<Byte>, key: seq<Byte>, j: nat)
    requires Lawful(f)
    ensures var r, d := ZeroEncrypt(f, p, key), ZeroPad(p);
            && p <= d && |d| < |p| + 16 && |d| % 16 == 0 && (forall i :: |p| <= i < |d| ==> d[i] == 0)
            && if |key| != 16 && |key| != 24 && |key| != 32 then r == Err
               else
                 r.Ok? && |r.bytes| == |d| && (16 * j + 16 <= |d| ==> BlockAt(r.bytes, j) == f(key).enc(BlockAt(d, j)))
  {
    hide MapBlocks;
    var d := ZeroPad(p);
    if LegalKey(key) {
      MapLength(f(key).enc, d);
      if 16 * j + 16 <= |d| {
        MapBlockAt(f(key).enc, d, j);
      }
    }
  }

  lemma ZeroTextBlocks(f: Family, y: seq<Byte>, key: seq<Byte>) returns (d: seq<Byte>)
    requires Lawful(f)
    ensures if |key| != 16 && |key| != 24 && |key| != 32 then ZeroDecrypt(f, y, key) == Err
            else if |y| % 16 != 0 then ZeroDecrypt(f, y, key) == Panic
            else
              && |d| == |y| && ZeroDecrypt(f, y, key) == Ok(ZeroUnpad(d))
              && forall j: nat :: 16 * j + 16 <= |y| ==> BlockAt(d, j) == f(key).dec(BlockAt(y, j))
  {
    d := TextBlocks(f, y, key);
  }

  /** The append-based pair ciphers each block under the first 16 bytes of the key. */
  lemma ChenBlocks(f: Family, s: seq<Byte>, key: seq<Byte>, j: nat)
    requires Lawful(f)
    ensures var r, t := ChenEncrypt(f, s, key), ChenDecrypt(f, s, key);
            if |key| < 16 || |s| % 16 != 0 then r == Panic && t == Panic
            else
              && r.Ok? && t.Ok? && |r.bytes| == |s| == |t.bytes|
              && (16 * j + 16 <= |s| ==>
                    BlockAt(r.bytes, j) == f(key[..16]).enc(BlockAt(s, j)) &&
                    BlockAt(t.bytes, j) == f(key[..16]).dec(BlockAt(s, j)))
  {
    hide MapBlocks;
    if |key| >= 16 && |s| % 16 == 0 {
      var c := f(key[..16]);
      MapLength(c.enc, s);
      MapLength(c.dec, s);
      if 16 * j + 16 <= |s| {
        MapBlockAt(c.enc, s, j);
        MapBlockAt(c.dec, s, j);
      }
    }
  }
}
