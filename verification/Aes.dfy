/** Padding and the ECB mode (pkg/encrypt/aes.go lines 101-243). The block cipher and base64
    are parameters; PKCS7 padding is that of section 6.3 of RFC 5652. */
module Aes {
  newtype byte = x: int | 0 <= x < 256

  type Bytes = seq<byte>

  const BLOCK_SIZE: nat := 16

  datatype Outcome<T> = Done(value: T) | Failed(error: string) | Panic

  // ----------------------------------------------------------------- padding

  function Repeat(b: byte, n: nat): (s: Bytes)
    ensures |s| == n && forall i | 0 <= i < n :: s[i] == b
  {
    seq(n, _ => b)
  }

  function PadLength(n: nat): (p: nat)
    ensures 1 <= p <= BLOCK_SIZE && (n + p) % BLOCK_SIZE == 0
  {
    BLOCK_SIZE - n % BLOCK_SIZE
  }

  function PKCS7Padding(data: Bytes): Bytes { data + Repeat(PadLength(|data|) as byte, PadLength(|data|)) }

  /** Panics on no data and on a last byte that is larger than the data is long. */
  function PKCS7UnPadding(data: Bytes): Outcome<Bytes> {
    if data == [] || data[|data| - 1] as int > |data| then Panic else Done(data[..|data| - data[|data| - 1] as int])
  }

  function ZeroPadding(data: Bytes): Bytes { data + Repeat(0, PadLength(|data|)) }

  /** data without its trailing zero bytes. */
  function Trimmed(data: Bytes): (r: Bytes)
    ensures r <= data && (r != [] ==> r[|r| - 1] != 0) && forall i | |r| <= i < |data| :: data[i] == 0
  {
    if data == [] || data[|data| - 1] != 0 then data else Trimmed(data[..|data| - 1])
  }

  /** Where the loop of zeroUnPadding ends: it runs off the front if there are only zeros. */
  function ZeroUnPadding(data: Bytes): Outcome<Bytes> {
    if Trimmed(data) == [] then Panic else Done(Trimmed(data))
  }

  lemma {:induction false} TrimmedUnique(data: Bytes, r: Bytes)
    requires r <= data && (r != [] ==> r[|r| - 1] != 0) && forall i | |r| <= i < |data| :: data[i] == 0
    ensures Trimmed(data) == r
  {
    var t := Trimmed(data);
    assert t == data[..|t|] && r == data[..|r|];
    assert t != [] ==> data[|t| - 1] != 0;
    assert r != [] ==> data[|r| - 1] != 0;
  }

  /** zeroUnPadding on a buffer. */
  method ZeroUnPaddingLoop(origData: array<byte>) returns (r: Outcome<Bytes>)
    ensures r == ZeroUnPadding(origData[..])
  {
    var length := origData.Length;
    var i := 0;
    while i < length && origData[length - 1 - i] == 0
      invariant 0 <= i <= length
      invariant forall j | length - i <= j < length :: origData[j] == 0
    {
      i := i + 1;
    }
    TrimmedUnique(origData[..], origData[..length - i]);
    // with i == length the next access is origData[-1]
    r := if i == length then Panic else Done(origData[..length - i]);
  }

  /** What padding data is: one to 16 bytes more, up to a whole number of blocks, each of them fill. */
  ghost predicate IsPadded(data: Bytes, padded: Bytes, fill: int) {
    && |data| < |padded| <= |data| + 16 && |padded| % 16 == 0 && data <= padded
    && forall i | |data| <= i < |padded| :: padded[i] as int == fill
  }

  /** Every byte of PKCS7 padding is its length, and unpadding takes it off again. */
  lemma PKCS7RoundTrip(data: Bytes)
    ensures var padded := PKCS7Padding(data); IsPadded(data, padded, |padded| - |data|)
    ensures PKCS7UnPadding(PKCS7Padding(data)) == Done(data)
  {
    var padded := PKCS7Padding(data);
    assert padded[|padded| - 1] as int == PadLength(|data|);
    assert padded[..|data|] == data;
  }

  /** What PKCS7 unpadding does to any data: it takes off as many bytes as the last one says, and panics exactly if
      there are not so many or none at all. */
  lemma PKCS7UnPaddingExact(data: Bytes)
    ensures PKCS7UnPadding(data).Panic? <==> data == [] || data[|data| - 1] as int > |data|
    ensures PKCS7UnPadding(data).Done? ==>
              var r := PKCS7UnPadding(data).value; r <= data && |data| - |r| == data[|data| - 1] as int
  {
  }

  lemma TrimmedPadding(data: Bytes, n: nat)
    ensures Trimmed(data + Repeat(0, n)) == Trimmed(data)
  {
    var t, padded := Trimmed(data), data + Repeat(0, n);
    assert t == padded[..|t|];
    forall i | |t| <= i < |padded| ensures padded[i] == 0 {}
    TrimmedUnique(padded, t);
  }

  lemma TrimmedSame(data: Bytes)
    ensures Trimmed(data) == data <==> data == [] || data[|data| - 1] != 0
  {
    if data != [] && data[|data| - 1] != 0 { TrimmedUnique(data, data); }
  }

  lemma UnPadded(padded: Bytes, data: Bytes)
    requires Trimmed(padded) == Trimmed(data)
    ensures ZeroUnPadding(padded) == if Trimmed(data) == [] then Panic else Done(Trimmed(data))
    ensures ZeroUnPadding(padded) == Done(data) <==> data != [] && data[|data| - 1] != 0
  {
    TrimmedSame(data);
  }

  lemma ZeroPadded(data: Bytes)
    ensures IsPadded(data, ZeroPadding(data), 0)
  {
  }

  /** Zero padding loses the trailing zeros of the data itself, and panics if there is nothing else. */
  lemma ZeroRoundTrip(data: Bytes)
    ensures ZeroUnPadding(ZeroPadding(data)) == if Trimmed(data) == [] then Panic else Done(Trimmed(data))
    ensures ZeroUnPadding(ZeroPadding(data)) == Done(data) <==> data != [] && data[|data| - 1] != 0
  {
    TrimmedPadding(data, PadLength(|data|));
    UnPadded(ZeroPadding(data), data);
  }

  // -------------------------------------------------------------------- ECB

  /** cipher.Block for AES: what one key does to a block. */
  datatype Block = Block(encrypt: Bytes -> Bytes, decrypt: Bytes -> Bytes)

  ghost predicate KeepsLength(f: Bytes -> Bytes) { forall b: Bytes | |b| == BLOCK_SIZE :: |f(b)| == BLOCK_SIZE }

  /** Decrypt inverts Encrypt on every block. */
  ghost predicate Lawful(block: Block) {
    && KeepsLength(block.encrypt) && KeepsLength(block.decrypt)
    && forall b: Bytes | |b| == BLOCK_SIZE :: block.decrypt(block.encrypt(b)) == b
  }

  /** f applied to each block of s. */
  ghost function Ecb(f: Bytes -> Bytes, s: Bytes): (r: Bytes)
    requires KeepsLength(f) && |s| % BLOCK_SIZE == 0
    ensures |r| == |s|
  {
    if s == [] then [] else Ecb(f, s[..|s| - BLOCK_SIZE]) + f(s[|s| - BLOCK_SIZE..])
  }

  lemma EcbSnoc(f: Bytes -> Bytes, s: Bytes, block: Bytes)
    requires KeepsLength(f) && |s| % BLOCK_SIZE == 0 && |block| == BLOCK_SIZE
    ensures (|s| + BLOCK_SIZE) % BLOCK_SIZE == 0 && Ecb(f, s + block) == Ecb(f, s) + f(block)
  {
    assert (s + block)[..|s|] == s && (s + block)[|s|..] == block;
  }

  lemma SliceOfFront(a: Bytes, b: Bytes, i: nat, j: nat)
    requires i <= j <= |a|
    ensures (a + b)[i..j] == a[i..j]
  {
  }

  lemma SliceOfBack(a: Bytes, b: Bytes)
    ensures (a + b)[|a|..|a| + |b|] == b
  {
  }

  /** Each block of the result is that of the input, on its own. */
  lemma {:induction false} EcbAt(f: Bytes -> Bytes, s: Bytes, at: nat)
    requires KeepsLength(f) && |s| % BLOCK_SIZE == 0 && at % BLOCK_SIZE == 0 && at + BLOCK_SIZE <= |s|
    ensures Ecb(f, s)[at..at + BLOCK_SIZE] == f(s[at..at + BLOCK_SIZE])
  {
    var n := |s| - BLOCK_SIZE;
    var front, last := s[..n], s[n..];
    assert s == front + last;
    EcbSnoc(f, front, last);
    if at == n {
      SliceOfBack(front, last);
      SliceOfBack(Ecb(f, front), f(last));
    } else {
      NextBlock(at, n);
      EcbAt(f, front, at);
      SliceOfFront(front, last, at, at + BLOCK_SIZE);
      SliceOfFront(Ecb(f, front), f(last), at, at + BLOCK_SIZE);
    }
  }

  lemma {:induction false} EcbRoundTrip(block: Block, s: Bytes)
    requires Lawful(block) && |s| % BLOCK_SIZE == 0
    ensures Ecb(block.decrypt, Ecb(block.encrypt, s)) == s
  {
    if s != [] {
      var n := |s| - BLOCK_SIZE;
      var front, last := s[..n], s[n..];
      var a, b := Ecb(block.encrypt, front), block.encrypt(last);
      assert s == front + last;
      EcbSnoc(block.encrypt, front, last);
      EcbSnoc(block.decrypt, a, b);
      EcbRoundTrip(block, front);
    }
  }

  lemma EcbMore(f: Bytes -> Bytes, s: Bytes, n: nat)
    requires KeepsLength(f) && n % BLOCK_SIZE == 0 && n + BLOCK_SIZE <= |s|
    ensures Ecb(f, s[..n + BLOCK_SIZE]) == Ecb(f, s[..n]) + f(s[n..n + BLOCK_SIZE])
  {
    assert s[..n + BLOCK_SIZE] == s[..n] + s[n..n + BLOCK_SIZE];
    EcbSnoc(f, s[..n], s[n..n + BLOCK_SIZE]);
  }

  /** s with block written at position at. */
  function Spliced(s: Bytes, at: nat, block: Bytes): Bytes
    requires at + |block| <= |s|
  {
    s[..at] + block + s[at + |block|..]
  }

  /** The buffer once n bytes of s have been worked off. */
  ghost function Progress(f: Bytes -> Bytes, s: Bytes, was: Bytes, n: nat): Bytes
    requires KeepsLength(f) && n % BLOCK_SIZE == 0 && n <= |s| <= |was|
  {
    Ecb(f, s[..n]) + was[n..]
  }

  lemma SpliceAt(done: Bytes, was: Bytes, block: Bytes)
    requires |done| + |block| <= |was|
    ensures Spliced(done + was[|done|..], |done|, block) == done + block + was[|done| + |block|..]
  {
    var s := done + was[|done|..];
    assert s[..|done|] == done;
    assert s[|done| + |block|..] == was[|done| + |block|..];
  }

  lemma ProgressMore(f: Bytes -> Bytes, s: Bytes, was: Bytes, n: nat)
    requires KeepsLength(f) && n % BLOCK_SIZE == 0 && n + BLOCK_SIZE <= |s| <= |was|
    ensures Spliced(Progress(f, s, was, n), n, f(s[n..n + BLOCK_SIZE])) == Progress(f, s, was, n + BLOCK_SIZE)
  {
    EcbMore(f, s, n);
    SpliceAt(Ecb(f, s[..n]), was, f(s[n..n + BLOCK_SIZE]));
  }

  lemma ProgressEnds(f: Bytes -> Bytes, s: Bytes, was: Bytes)
    requires KeepsLength(f) && |s| % BLOCK_SIZE == 0 && |s| <= |was|
    ensures Progress(f, s, was, 0) == was && Progress(f, s, was, |s|) == Ecb(f, s) + was[|s|..]
  {
    assert s[..|s|] == s;
  }

  /** Writing one block. */
  method CopyBlock(dst: array<byte>, at: nat, block: Bytes)
    requires at + |block| <= dst.Length
    modifies dst
    ensures dst[..] == Spliced(old(dst[..]), at, block)
  {
    for i := 0 to |block|
      invariant forall j | 0 <= j < dst.Length :: dst[j] == if at <= j < at + i then block[j - at] else old(dst[j])
    {
      dst[at + i] := block[i];
    }
  }

  lemma NextBlock(n: nat, length: nat)
    requires n % BLOCK_SIZE == 0 && length % BLOCK_SIZE == 0 && n < length
    ensures n + BLOCK_SIZE <= length && (n + BLOCK_SIZE) % BLOCK_SIZE == 0
  {
  }

  /** One iteration of CryptBlocks. */
  method CryptBlock(f: Bytes -> Bytes, dst: array<byte>, src: array<byte>, n: nat, ghost was: Bytes)
    requires KeepsLength(f) && dst != src && n % BLOCK_SIZE == 0 && n + BLOCK_SIZE <= src.Length <= |was|
    requires dst[..] == Progress(f, src[..], was, n)
    modifies dst
    ensures dst[..] == Progress(f, src[..], was, n + BLOCK_SIZE)
  {
    var block := src[n..n + BLOCK_SIZE];
    assert block == src[..][n..n + BLOCK_SIZE];
    ProgressMore(f, src[..], was, n);
    CopyBlock(dst, n, f(block));
  }

  /** CryptBlocks of the encrypter (f = Encrypt) and of the decrypter (f = Decrypt). */
  method CryptBlocks(f: Bytes -> Bytes, dst: array<byte>, src: array<byte>) returns (panicked: bool)
    requires KeepsLength(f) && dst != src
    modifies dst
    ensures panicked <==> src.Length % BLOCK_SIZE != 0 || dst.Length < src.Length
    ensures panicked ==> dst[..] == old(dst[..])
    ensures !panicked ==> dst[..] == Ecb(f, src[..]) + old(dst[..])[src.Length..]
  {
    if src.Length % BLOCK_SIZE != 0 || dst.Length < src.Length {
      return true;
    }
    ghost var was := dst[..];
    ProgressEnds(f, src[..], was);
    var n := 0;
    while n < src.Length
      invariant n <= src.Length && n % BLOCK_SIZE == 0
      invariant dst[..] == Progress(f, src[..], was, n)
    {
      NextBlock(n, src.Length);
      CryptBlock(f, dst, src, n, was);
      n := n + BLOCK_SIZE;
    }
    return false;
  }

  /** A buffer for the result, and the mode applied to it. */
  method Crypt(f: Bytes -> Bytes, data: Bytes) returns (out: array<byte>, panicked: bool)
    requires KeepsLength(f)
    ensures fresh(out) && (panicked <==> |data| % BLOCK_SIZE != 0)
    ensures !panicked ==> out[..] == Ecb(f, data)
  {
    var src := new byte[|data|](i requires 0 <= i < |data| => data[i]);
    assert src[..] == data;
    out := new byte[|data|];
    panicked := CryptBlocks(f, out, src);
    assert !panicked ==> out[..] == Ecb(f, data) + [];
  }

  // ------------------------------------------------------ encrypt and decrypt

  datatype Padding = Zero | PKCS7

  /** The tables paddingFuncMap and unPaddingFuncMap. */
  function PaddingOf(aesType: int): Outcome<Padding> {
    if aesType == 0 then Done(Zero) else if aesType == 1 then Done(PKCS7) else Failed("unsupported aes type")
  }

  function Pad(p: Padding, data: Bytes): (r: Bytes)
    ensures |r| % BLOCK_SIZE == 0
  {
    if p.Zero? then ZeroPadding(data) else PKCS7Padding(data)
  }

  function UnPad(p: Padding, data: Bytes): Outcome<Bytes> {
    if p.Zero? then ZeroUnPadding(data) else PKCS7UnPadding(data)
  }

  /** base64.StdEncoding; decode gives what DecodeString returns beside its error, which decrypt ignores. */
  datatype Base64 = Base64(encode: Bytes -> string, decode: string -> Bytes)

  ghost predicate LawfulBase64(b64: Base64) { forall b :: b64.decode(b64.encode(b)) == b }

  /** aes.NewCipher fails on a key of the wrong length. */
  type NewCipher = string -> Outcome<Block>

  ghost predicate LawfulCipher(newCipher: NewCipher) {
    forall key :: !newCipher(key).Panic? && (newCipher(key).Done? ==> Lawful(newCipher(key).value))
  }

  class AesEcb {
    const aesType: int
    const key: string
    const newCipher: NewCipher
    const b64: Base64

    constructor (aesType: int, key: string, newCipher: NewCipher, b64: Base64)
      ensures this.aesType == aesType && this.key == key && this.newCipher == newCipher && this.b64 == b64
    {
      this.aesType, this.key, this.newCipher, this.b64 := aesType, key, newCipher, b64;
    }

    /** AesEcbEncrypt. */
    method Encrypt(srcData: Bytes) returns (r: Outcome<string>)
      requires LawfulCipher(newCipher)
      ensures r == EcbEncrypt(newCipher, b64, aesType, key, srcData)
    {
      var padding := PaddingOf(aesType);
      if padding.Failed? {
        return Failed(padding.error);
      }
      var cipher := newCipher(key);
      if cipher.Failed? {
        return Failed(cipher.error);
      }
      var out, _ := Crypt(cipher.value.encrypt, Pad(padding.value, srcData));
      r := Done(b64.encode(out[..]));
    }

    /** AesEcbDecrypt. */
    method Decrypt(ciphertext: string) returns (r: Outcome<Bytes>)
      requires LawfulCipher(newCipher)
      ensures r == EcbDecrypt(newCipher, b64, aesType, key, ciphertext)
    {
      var padding := PaddingOf(aesType);
      if padding.Failed? {
        return Failed(padding.error);
      }
      var cipher := newCipher(key);
      if cipher.Failed? {
        return Failed(cipher.error);
      }
      var out, panicked := Crypt(cipher.value.decrypt, b64.decode(ciphertext));
      if panicked {
        return Panic;
      }
      if padding.value.Zero? {
        r := ZeroUnPaddingLoop(out);
      } else {
        r := PKCS7UnPadding(out[..]);
      }
    }
  }

  ghost function EcbEncrypt(newCipher: NewCipher, b64: Base64, aesType: int, key: string, data: Bytes): Outcome<string>
    requires LawfulCipher(newCipher)
  {
    match PaddingOf(aesType)
    case Failed(e) => Failed(e)
    case Panic => Panic
    case Done(p) =>
      match newCipher(key)
      case Failed(e) => Failed(e)
      case Panic => Panic
      case Done(block) => Done(b64.encode(Ecb(block.encrypt, Pad(p, data))))
  }

  ghost function EcbDecrypt(newCipher: NewCipher, b64: Base64, aesType: int, key: string,
                            ciphertext: string): Outcome<Bytes>
    requires LawfulCipher(newCipher)
  {
    match PaddingOf(aesType)
    case Failed(e) => Failed(e)
    case Panic => Panic
    case Done(p) =>
      match newCipher(key)
      case Failed(e) => Failed(e)
      case Panic => Panic
      case Done(block) =>
        var bytes := b64.decode(ciphertext);
        if |bytes| % BLOCK_SIZE != 0 then Panic else UnPad(p, Ecb(block.decrypt, bytes))
  }

  ghost predicate BlockByBlock(f: Bytes -> Bytes, s: Bytes, out: Bytes) {
    |out| == |s| && forall at: nat | at % 16 == 0 && at + 16 <= |s| :: SameBlock(f, s, out, at)
  }

  predicate SameBlock(f: Bytes -> Bytes, s: Bytes, out: Bytes, at: nat)
    requires at + 16 <= |s| == |out|
  {
    out[at..at + 16] == f(s[at..at + 16])
  }

  lemma EcbBlockByBlock(f: Bytes -> Bytes, s: Bytes)
    requires KeepsLength(f) && |s| % BLOCK_SIZE == 0
    ensures BlockByBlock(f, s, Ecb(f, s))
  {
    forall at: nat | at % 16 == 0 && at + 16 <= |s| ensures SameBlock(f, s, Ecb(f, s), at) { EcbAt(f, s, at); }
  }

  /** What encryption encodes is the padded data with the cipher applied to each block of 16 bytes. */
  ghost predicate IsEncryption(b64: Base64, f: Bytes -> Bytes, aesType: int, data: Bytes, result: string, padded: Bytes,
                               out: Bytes) {
    && IsPadded(data, padded, if aesType == 1 then |padded| - |data| else 0)
    && BlockByBlock(f, padded, out) && result == b64.encode(out)
  }

  /** Encryption fails exactly for an unknown type or a bad key, and else returns the base64 of that. */
  lemma EncryptExact(newCipher: NewCipher, b64: Base64, aesType: int, key: string, data: Bytes)
    requires LawfulCipher(newCipher)
    ensures var r := EcbEncrypt(newCipher, b64, aesType, key, data);
            if (aesType == 0 || aesType == 1) && newCipher(key).Done?
            then r.Done? && exists padded, out ::
                   IsEncryption(b64, newCipher(key).value.encrypt, aesType, data, r.value, padded, out)
            else r.Failed?
  {
    if (aesType == 0 || aesType == 1) && newCipher(key).Done? {
      var f, padded := newCipher(key).value.encrypt, Pad(PaddingOf(aesType).value, data);
      PKCS7RoundTrip(data);
      ZeroPadded(data);
      EcbBlockByBlock(f, padded);
      var result := EcbEncrypt(newCipher, b64, aesType, key, data).value;
      assert IsEncryption(b64, f, aesType, data, result, padded, Ecb(f, padded));
    }
  }

  /** Decryption gives back what was encrypted: always with PKCS7 padding, and with zero padding exactly
      if the data is not empty and does not end in a zero byte. */
  lemma EncryptDecrypt(newCipher: NewCipher, b64: Base64, aesType: int, key: string, data: Bytes)
    requires LawfulCipher(newCipher) && LawfulBase64(b64)
    requires EcbEncrypt(newCipher, b64, aesType, key, data).Done?
    ensures EcbDecrypt(newCipher, b64, aesType, key, EcbEncrypt(newCipher, b64, aesType, key, data).value) == Done(data)
            <==> aesType == 1 || (data != [] && data[|data| - 1] != 0)
  {
    EcbRoundTrip(newCipher(key).value, Pad(PaddingOf(aesType).value, data));
    PKCS7RoundTrip(data);
    ZeroRoundTrip(data);
  }
}
