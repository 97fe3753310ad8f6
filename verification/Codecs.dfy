/** The codecs as they run: block loops that advance through the buffers, and wrappers that allocate and fill them. */
module Codecs {
  import opened Bytes
  import opened CodecModel

  /** `CryptBlocks` of both ECB modes (`f` is the cipher's encryption or decryption). Refuses, touching nothing, what
      the source panics on. The destination may be the source itself. */
  method CryptBlocks(f: seq<Byte> -> seq<Byte>, dst: array<Byte>, src: array<Byte>) returns (panic: bool)
    requires forall b: seq<Byte> :: |b| == BLOCK ==> |f(b)| == BLOCK
    modifies dst
    ensures panic == (src.Length % BLOCK != 0 || dst.Length < src.Length)
    ensures panic ==> dst[..] == old(dst[..])
    ensures !panic ==> dst[..] == MapBlocks(f, old(src[..])) + old(dst[..])[src.Length..]
    ensures !panic && dst.Length == src.Length ==> dst[..] == MapBlocks(f, old(src[..]))
  {
    hide MapBlocks;
    if src.Length % BLOCK != 0 {
      return true;
    }
    if dst.Length < src.Length {
      return true;
    }
    panic := false;
    ghost var was, text := dst[..], src[..];
    MapLength(f, text);
    ghost var m := MapBlocks(f, text);
    var at := 0;
    assert text[0..] == text && was[0..] == was && m[0..] == m;
    while at < src.Length
      invariant 0 <= at <= src.Length && at % BLOCK == 0
      invariant dst[..] == m[..at] + was[at..]
      invariant src[at..] == text[at..]
      invariant m[at..] == MapBlocks(f, text[at..])
    {
      WholeBlock(at, src.Length);
      CryptBlock(f, dst, src, at, text, was);
      at := at + BLOCK;
    }
    assert m[..at] == m;
  }

  lemma WholeBlock(at: nat, n: nat)
    requires at % BLOCK == 0 && n % BLOCK == 0 && at < n
    ensures at + BLOCK <= n && (at + BLOCK) % BLOCK == 0
  {
  }

  /** One turn of the loop: the block at `at` goes from source to destination. */
  method CryptBlock(f: seq<Byte> -> seq<Byte>, dst: array<Byte>, src: array<Byte>, at: nat,
                    ghost text: seq<Byte>, ghost was: seq<Byte>)
    requires |text| == src.Length == |MapBlocks(f, text)| <= dst.Length == |was| &&
      (dst == src ==> was == text) && at + BLOCK <= src.Length
    requires |f(text[at..at + BLOCK])| == BLOCK
    requires dst[..] == MapBlocks(f, text)[..at] + was[at..] && src[at..] == text[at..]
    requires MapBlocks(f, text)[at..] == MapBlocks(f, text[at..])
    modifies dst
    ensures dst[..] == MapBlocks(f, text)[..at + BLOCK] + was[at + BLOCK..] && src[at + BLOCK..] == text[at + BLOCK..]
    ensures MapBlocks(f, text)[at + BLOCK..] == MapBlocks(f, text[at + BLOCK..])
  {
    hide MapBlocks;
    var block := src[at..at + BLOCK];
    assert block == src[at..][..BLOCK] && text[at..][..BLOCK] == text[at..at + BLOCK];
    PutBlock(dst, at, f(block));
    NextBlock(f, text, at);
    NextBuffer(MapBlocks(f, text), was, at);
    assert text[at..][BLOCK..] == text[at + BLOCK..];
    assert src[at + BLOCK..] == text[at + BLOCK..] by {
      if dst != src {
        assert src[at..][BLOCK..] == src[at + BLOCK..];
      } else {
        assert forall i :: at + BLOCK <= i < src.Length ==> src[i] == was[i] == text[i];
      }
    }
  }

  lemma NextBuffer(m: seq<Byte>, was: seq<Byte>, at: nat)
    requires at + BLOCK <= |m| <= |was|
    ensures var now := m[..at] + was[at..];
            now[..at] + m[at..at + BLOCK] + now[at + BLOCK..] == m[..at + BLOCK] + was[at + BLOCK..]
  {
  }

  method PutBlock(dst: array<Byte>, at: nat, out: seq<Byte>)
    requires at + |out| <= dst.Length
    modifies dst
    ensures dst[..] == old(dst[..])[..at] + out + old(dst[..])[at + |out|..]
  {
    forall i | 0 <= i < |out| {
      dst[at + i] := out[i];
    }
  }

  lemma NextBlock(f: seq<Byte> -> seq<Byte>, text: seq<Byte>, at: nat)
    requires at + BLOCK <= |text| == |MapBlocks(f, text)|
    requires |f(text[at..at + BLOCK])| == BLOCK && MapBlocks(f, text)[at..] == MapBlocks(f, text[at..])
    ensures var m := MapBlocks(f, text);
            && m[at..at + BLOCK] == f(text[at..at + BLOCK])
            && m[at + BLOCK..] == MapBlocks(f, text[at + BLOCK..])
  {
    var m := MapBlocks(f, text);
    assert text[at..][..BLOCK] == text[at..at + BLOCK] && text[at..][BLOCK..] == text[at + BLOCK..];
    assert m[at..][..BLOCK] == m[at..at + BLOCK] && m[at..][BLOCK..] == m[at + BLOCK..];
  }

  method ToArray(s: seq<Byte>) returns (a: array<Byte>)
    ensures fresh(a) && a[..] == s
  {
    a := new Byte[|s|](i requires 0 <= i < |s| => s[i]);
  }

  // ----- ECB with PKCS padding -----

  method AesEcbPkcs5Encrypt(f: Family, src: seq<Byte>, key: seq<Byte>) returns (r: Result)
    requires Lawful(f)
    ensures r == EcbPkcsEncrypt(f, src, key)
  {
    hide MapBlocks;
    if |src| == 0 {
      return Err;
    }
    if !LegalKey(key) {
      return Err;
    }
    var c := f(key);
    var content := ToArray(Pad(src, BLOCK));
    PadMultiple(src);
    var crypted := new Byte[content.Length](_ => 0);
    var panic := CryptBlocks(c.enc, crypted, content);
    MapLength(c.enc, Pad(src, BLOCK));
    return Ok(crypted[..]);
  }

  method AesEcbPkcs5Decrypt(f: Family, crypted: seq<Byte>, key: seq<Byte>) returns (r: Result)
    requires Lawful(f)
    ensures r == EcbPkcsDecrypt(f, crypted, key)
  {
    hide MapBlocks;
    if !LegalKey(key) {
      return Err;
    }
    var c := f(key);
    var input := ToArray(crypted);
    var origData := new Byte[|crypted|](_ => 0);
    var panic := CryptBlocks(c.dec, origData, input);
    if panic {
      return Panic;
    }
    MapLength(c.dec, crypted);
    return Unpad(origData[..]);
  }

  // ----- The append-based pair -----

  method ChenCrypt(g: seq<Byte> -> seq<Byte>, s: seq<Byte>) returns (out: seq<Byte>)
    requires |s| % BLOCK == 0 && forall b: seq<Byte> :: |b| == BLOCK ==> |g(b)| == BLOCK
    ensures out == MapBlocks(g, s)
  {
    out := [];
    var text := new Byte[BLOCK](_ => 0);
    var left := s;
    while |left| > 0
      invariant |left| % BLOCK == 0 && MapBlocks(g, s) == out + MapBlocks(g, left)
      decreases |left|
    {
      PutBlock(text, 0, g(left[..BLOCK]));
      assert text[..] == g(left[..BLOCK]);
      left := left[BLOCK..];
      out := out + text[..];
    }
  }

  method Encrypt(f: Family, plaintext: seq<Byte>, key: seq<Byte>) returns (r: Result)
    requires Lawful(f)
    ensures r == ChenEncrypt(f, plaintext, key)
  {
    if |key| < BLOCK {
      return Panic;
    }
    var c := f(key[..BLOCK]);
    if |plaintext| % BLOCK != 0 {
      return Panic;
    }
    var ciphertext := ChenCrypt(c.enc, plaintext);
    return Ok(ciphertext);
  }

  method Decrypt(f: Family, ciphertext: seq<Byte>, key: seq<Byte>) returns (r: Result)
    requires Lawful(f)
    ensures r == ChenDecrypt(f, ciphertext, key)
  {
    if |key| < BLOCK {
      return Panic;
    }
    var c := f(key[..BLOCK]);
    if |ciphertext| % BLOCK != 0 {
      return Panic;
    }
    var plaintext := ChenCrypt(c.dec, ciphertext);
    return Ok(plaintext);
  }

  // ----- ECB with zero padding -----

  /** The backward scan over the last 16 bytes. */
  method ECBUnZeroPadding(plantText: seq<Byte>) returns (r: seq<Byte>)
    ensures r == ZeroUnpad(plantText)
  {
    var l := |plantText|;
    if l >= 16 {
      var i := l;
      while i > l - 16
        invariant l - 16 <= i <= l && AllZero(plantText[i..])
      {
        if plantText[i - 1] != 0 {
          StrippedAt(plantText, i);
          assert plantText[l - 16..][i - 1 - (l - 16)] != 0;
          return plantText[..i];
        }
        assert plantText[i - 1..] == [plantText[i - 1]] + plantText[i..];
        i := i - 1;
      }
    }
    r := plantText;
  }

  method ZeroPaddedEncrypt(f: Family, plantText: seq<Byte>, key: seq<Byte>) returns (r: Result)
    requires Lawful(f)
    ensures r == ZeroEncrypt(f, plantText, key)
  {
    hide MapBlocks, ZeroPad;
    ZeroPadWhole(plantText);
    if !LegalKey(key) {
      return Err;
    }
    var c := f(key);
    var padded := ToArray(ZeroPad(plantText));
    var ciphertext := new Byte[padded.Length](_ => 0);
    var panic := CryptBlocks(c.enc, ciphertext, padded);
    MapLength(c.enc, ZeroPad(plantText));
    return Ok(ciphertext[..]);
  }

  method ZeroPaddedDecrypt(f: Family, ciphertext: seq<Byte>, key: seq<Byte>) returns (r: Result)
    requires Lawful(f)
    ensures r == ZeroDecrypt(f, ciphertext, key)
  {
    hide MapBlocks;
    if !LegalKey(key) {
      return Err;
    }
    var c := f(key);
    var input := ToArray(ciphertext);
    var plantText := new Byte[|ciphertext|](_ => 0);
    var panic := CryptBlocks(c.dec, plantText, input);
    if panic {
      return Panic;
    }
    MapLength(c.dec, ciphertext);
    var unpadded := ECBUnZeroPadding(plantText[..]);
    return Ok(unpadded);
  }
}
