/**
 des.c: DES in 64-bit cipher feedback mode (section 6.3 of NIST SP 800-38A), carried as base64. The
 block cipher itself is a parameter.
 */
module Des {
  import opened Cells
  import opened Base64

  /** `parity` is `DES_set_odd_parity`, `block` one DES encryption of an 8-byte block under a key. */
  datatype BlockCipher = BlockCipher(parity: seq<Byte> -> seq<Byte>, block: (seq<Byte>, seq<Byte>) -> seq<Byte>)

  ghost predicate Blocks(e: BlockCipher) {
    && (forall k :: |k| == 8 ==> |e.parity(k)| == 8)
    && (forall k, x :: |k| == 8 && |x| == 8 ==> |e.block(k, x)| == 8)
  }

  // ---- cipher feedback mode ----

  /** The input block behind byte `i`: the initial vector, then each full block of ciphertext. */
  function Feedback(iv: seq<Byte>, c: seq<Byte>, i: nat): (block: seq<Byte>)
    requires |iv| == 8 && i / 8 <= |c| / 8
    ensures |block| == 8
  {
    if i < 8 then iv else c[i / 8 * 8 - 8..i / 8 * 8]
  }

  /** The byte that masks byte `i`. */
  ghost function Mask(e: BlockCipher, key: seq<Byte>, iv: seq<Byte>, c: seq<Byte>, i: nat): Byte
    requires Blocks(e) && |key| == 8 && |iv| == 8 && i / 8 <= |c| / 8
  {
    e.block(key, Feedback(iv, c, i))[i % 8]
  }

  function Xor(a: Byte, b: Byte): Byte {
    a ^ b
  }

  /** `c` is the plaintext `p` enciphered. */
  ghost predicate IsCfb(e: BlockCipher, key: seq<Byte>, iv: seq<Byte>, p: seq<Byte>, c: seq<Byte>)
    requires Blocks(e) && |key| == 8 && |iv| == 8
  {
    |p| == |c| && forall i | 0 <= i < |c| :: c[i] == Xor(p[i], Mask(e, key, iv, c, i))
  }

  lemma XorTwice(a: Byte, b: Byte)
    ensures Xor(Xor(a, b), b) == a
  {
  }

  /** A byte's mask depends on the ciphertext before its block only. */
  lemma MaskOfPrefix(e: BlockCipher, key: seq<Byte>, iv: seq<Byte>, c: seq<Byte>, d: seq<Byte>, k: nat, i: nat)
    requires Blocks(e) && |key| == 8 && |iv| == 8
    requires i <= k <= |c| && k <= |d| && c[..k] == d[..k]
    ensures Mask(e, key, iv, c, i) == Mask(e, key, iv, d, i)
  {
    if i >= 8 {
      assert c[i / 8 * 8 - 8..i / 8 * 8] == c[..k][i / 8 * 8 - 8..i / 8 * 8];
      assert d[i / 8 * 8 - 8..i / 8 * 8] == d[..k][i / 8 * 8 - 8..i / 8 * 8];
    }
  }

  lemma CfbExtended(e: BlockCipher, key: seq<Byte>, iv: seq<Byte>, p: seq<Byte>, c: seq<Byte>, x: Byte)
    requires Blocks(e) && |key| == 8 && |iv| == 8 && IsCfb(e, key, iv, p, c)
    ensures IsCfb(e, key, iv, p + [x], c + [Xor(x, Mask(e, key, iv, c, |c|))])
  {
    var c' := c + [Xor(x, Mask(e, key, iv, c, |c|))];
    forall i | 0 <= i < |c'|
      ensures c'[i] == Xor((p + [x])[i], Mask(e, key, iv, c', i))
    {
      MaskOfPrefix(e, key, iv, c, c', |c|, i);
    }
  }

  /** The prefix law: the first bytes of plaintext and ciphertext are enciphered by themselves. */
  lemma CfbPrefix(e: BlockCipher, key: seq<Byte>, iv: seq<Byte>, p: seq<Byte>, c: seq<Byte>, k: nat)
    requires Blocks(e) && |key| == 8 && |iv| == 8 && IsCfb(e, key, iv, p, c) && k <= |c|
    ensures IsCfb(e, key, iv, p[..k], c[..k])
  {
    forall i | 0 <= i < k
      ensures c[..k][i] == Xor(p[..k][i], Mask(e, key, iv, c[..k], i))
    {
      MaskOfPrefix(e, key, iv, c[..k], c, k, i);
    }
  }

  /** A ciphertext has one plaintext. */
  lemma OnePlaintext(e: BlockCipher, key: seq<Byte>, iv: seq<Byte>, p: seq<Byte>, q: seq<Byte>, c: seq<Byte>)
    requires Blocks(e) && |key| == 8 && |iv| == 8 && IsCfb(e, key, iv, p, c) && IsCfb(e, key, iv, q, c)
    ensures p == q
  {
    forall i | 0 <= i < |c|
      ensures p[i] == q[i]
    {
      XorTwice(p[i], Mask(e, key, iv, c, i));
      XorTwice(q[i], Mask(e, key, iv, c, i));
    }
  }

  lemma LastApart(s: seq<Byte>, n: nat)
    requires |s| == n + 1
    ensures s == s[..n] + [s[n]]
  {
  }

  /** A plaintext has one ciphertext. */
  lemma {:induction false} OneCiphertext(e: BlockCipher, key: seq<Byte>, iv: seq<Byte>, p: seq<Byte>,
                                         c: seq<Byte>, d: seq<Byte>)
    requires Blocks(e) && |key| == 8 && |iv| == 8 && IsCfb(e, key, iv, p, c) && IsCfb(e, key, iv, p, d)
    ensures c == d
  {
    if p != [] {
      var n := |p| - 1;
      CfbPrefix(e, key, iv, p, c, n);
      CfbPrefix(e, key, iv, p, d, n);
      assert c[n] == Xor(p[n], Mask(e, key, iv, c, n)) && d[n] == Xor(p[n], Mask(e, key, iv, d, n));
      assert |c| == |d| == n + 1;
      hide *;
      OneCiphertext(e, key, iv, p[..n], c[..n], d[..n]);
      MaskOfPrefix(e, key, iv, c, d, n, n);
      LastApart(c, n);
      LastApart(d, n);
    }
  }

  ghost function Enciphered(e: BlockCipher, key: seq<Byte>, iv: seq<Byte>, p: seq<Byte>): (c: seq<Byte>)
    requires Blocks(e) && |key| == 8 && |iv| == 8
    ensures IsCfb(e, key, iv, p, c)
  {
    if p == [] then []
    else
      var n := |p| - 1;
      var c := Enciphered(e, key, iv, p[..n]);
      CfbExtended(e, key, iv, p[..n], c, p[n]);
      assert p[..n] + [p[n]] == p;
      c + [Xor(p[n], Mask(e, key, iv, c, n))]
  }

  ghost function Deciphered(e: BlockCipher, key: seq<Byte>, iv: seq<Byte>, c: seq<Byte>): (p: seq<Byte>)
    requires Blocks(e) && |key| == 8 && |iv| == 8
    ensures IsCfb(e, key, iv, p, c)
  {
    var p := seq(|c|, i requires 0 <= i < |c| => Xor(c[i], Mask(e, key, iv, c, i)));
    assert forall i | 0 <= i < |c| :: c[i] == Xor(p[i], Mask(e, key, iv, c, i)) by {
      forall i | 0 <= i < |c| {
        XorTwice(c[i], Mask(e, key, iv, c, i));
      }
    }
    p
  }

  // ---- the feedback register ----

  /** What the 8-byte register holds after `c`: ciphertext up to the counter, then what is left of
      the enciphered block. */
  ghost function Register(e: BlockCipher, key: seq<Byte>, iv: seq<Byte>, c: seq<Byte>): (r: seq<Byte>)
    requires Blocks(e) && |key| == 8 && |iv| == 8
    ensures |r| == 8
  {
    var n := |c| % 8;
    if n == 0 then Feedback(iv, c, |c|)
    else c[|c| / 8 * 8..] + e.block(key, Feedback(iv, c, |c|))[n..]
  }

  /** The register as the next byte uses it: enciphered when the counter has come round. */
  ghost function Ready(e: BlockCipher, key: seq<Byte>, iv: seq<Byte>, c: seq<Byte>): (r: seq<Byte>)
    requires Blocks(e) && |key| == 8 && |iv| == 8
    ensures |r| == 8 && r[|c| % 8] == Mask(e, key, iv, c, |c|)
    ensures r == c[|c| / 8 * 8..] + e.block(key, Feedback(iv, c, |c|))[|c| % 8..]
  {
    if |c| % 8 == 0 then e.block(key, Register(e, key, iv, c)) else Register(e, key, iv, c)
  }

  lemma Spliced(a: seq<Byte>, b: seq<Byte>, y: Byte)
    requires |a| < |b|
    ensures (a + b[|a|..])[|a| := y] == (a + [y]) + b[|a| + 1..]
  {
  }

  lemma NextPlace(l: nat)
    ensures l % 8 < 7 ==> (l + 1) / 8 == l / 8 && (l + 1) % 8 == l % 8 + 1
    ensures l % 8 == 7 ==> (l + 1) % 8 == 0 && (l + 1) / 8 * 8 == l + 1 && l / 8 * 8 == l - 7
    ensures l / 8 * 8 == l - l % 8
  {
  }

  lemma FeedbackStays(iv: seq<Byte>, c: seq<Byte>, y: Byte)
    requires |iv| == 8 && |c| % 8 < 7
    ensures Feedback(iv, c + [y], |c| + 1) == Feedback(iv, c, |c|)
  {
    NextPlace(|c|);
    var start, c' := |c| / 8 * 8, c + [y];
    assert |c'| / 8 * 8 == start;
    if |c| >= 8 {
      assert Feedback(iv, c', |c'|) == c'[start - 8..start];
      assert c'[start - 8..start] == c[start - 8..start];
    }
  }

  lemma FeedbackTurns(iv: seq<Byte>, c: seq<Byte>, y: Byte)
    requires |iv| == 8 && |c| % 8 == 7
    ensures Feedback(iv, c + [y], |c| + 1) == c[|c| - 7..] + [y]
  {
    NextPlace(|c|);
    var c' := c + [y];
    assert Feedback(iv, c', |c'|) == c'[|c'| - 8..|c'|];
    assert c'[|c'| - 8..|c'|] == c[|c| - 7..] + [y];
  }

  lemma RegisterStays(e: BlockCipher, key: seq<Byte>, iv: seq<Byte>, c: seq<Byte>, y: Byte)
    requires Blocks(e) && |key| == 8 && |iv| == 8 && |c| % 8 < 7
    ensures Register(e, key, iv, c + [y]) == Ready(e, key, iv, c)[|c| % 8 := y]
  {
    var start, c' := |c| / 8 * 8, c + [y];
    NextPlace(|c|);
    FeedbackStays(iv, c, y);
    hide Feedback;
    Spliced(c[start..], e.block(key, Feedback(iv, c, |c|)), y);
    assert c'[start..] == c[start..] + [y];
  }

  lemma RegisterFull(e: BlockCipher, key: seq<Byte>, iv: seq<Byte>, c: seq<Byte>, y: Byte)
    requires Blocks(e) && |key| == 8 && |iv| == 8 && |c| % 8 == 7
    ensures Register(e, key, iv, c + [y]) == Ready(e, key, iv, c)[|c| % 8 := y]
  {
    var block := e.block(key, Feedback(iv, c, |c|));
    NextPlace(|c|);
    FeedbackTurns(iv, c, y);
    hide Feedback;
    Spliced(c[|c| - 7..], block, y);
    assert block[8..] == [];
  }

  /** Putting the next ciphertext byte into the register at the counter is all it takes. */
  lemma RegisterTurns(e: BlockCipher, key: seq<Byte>, iv: seq<Byte>, c: seq<Byte>, y: Byte)
    requires Blocks(e) && |key| == 8 && |iv| == 8
    ensures Register(e, key, iv, c + [y]) == Ready(e, key, iv, c)[|c| % 8 := y]
  {
    if |c| % 8 < 7 {
      RegisterStays(e, key, iv, c, y);
    } else {
      RegisterFull(e, key, iv, c, y);
    }
  }

  // ---- the code ----

  /** One byte of `DES_cfb64_encrypt`. */
  method CfbByte(e: BlockCipher, key: seq<Byte>, x: Byte, ivec: array<Byte>, n: nat, encrypting: bool,
                 ghost iv: seq<Byte>, ghost c: seq<Byte>)
    returns (y: Byte)
    requires Blocks(e) && |key| == 8 && |iv| == 8 && ivec.Length == 8
    requires n == |c| % 8 && ivec[..] == Register(e, key, iv, c)
    modifies ivec
    ensures y == Xor(x, Mask(e, key, iv, c, |c|))
    ensures ivec[..] == Register(e, key, iv, c + [if encrypting then y else x])
  {
    if n == 0 {
      var block := e.block(key, ivec[..]);
      forall k | 0 <= k < 8 {
        ivec[k] := block[k];
      }
      assert ivec[..] == block;
    }
    y := Xor(x, ivec[n]);
    ivec[n] := if encrypting then y else x;
    RegisterTurns(e, key, iv, c, ivec[n]);
  }

  /** `DES_cfb64_encrypt` with `DES_ENCRYPT` or `DES_DECRYPT`, its counter starting at 0. */
  method Cfb64(e: BlockCipher, key: seq<Byte>, input: array<Byte>, output: array<Byte>, size: nat,
               ivec: array<Byte>, encrypting: bool)
    requires Blocks(e) && |key| == 8 && ivec.Length == 8
    requires size <= input.Length && size <= output.Length
    requires input != output && input != ivec && output != ivec
    modifies output, ivec
    ensures if encrypting then IsCfb(e, key, old(ivec[..]), input[..size], output[..size])
            else IsCfb(e, key, old(ivec[..]), output[..size], input[..size])
  {
    hide IsCfb;
    hide Register;
    hide Mask;
    hide Blocks;
    ghost var iv := ivec[..];
    ghost var p, c: seq<Byte> := [], [];
    NothingEnciphered(e, key, iv);
    assert ivec[..] == iv;
    var i, n := 0, 0;
    while i < size
      invariant 0 <= i <= size && |c| == i && n == i % 8
      invariant IsCfb(e, key, iv, p, c)
      invariant input[..i] == if encrypting then p else c
      invariant output[..i] == if encrypting then c else p
      invariant ivec[..] == Register(e, key, iv, c)
    {
      var x := input[i];
      var y := CfbByte(e, key, x, ivec, n, encrypting, iv, c);
      output[i] := y;
      XorTwice(x, Mask(e, key, iv, c, i));
      CfbExtended(e, key, iv, p, c, if encrypting then x else y);
      p, c := p + [if encrypting then x else y], c + [if encrypting then y else x];
      i, n := i + 1, (n + 1) % 8;
    }
  }

  // ---- des_encrypt and des_decrypt ----

  /** The block that serves as key and as initial vector. */
  function KeyBlock(e: BlockCipher, secret: seq<Byte>): seq<Byte>
    requires |secret| >= 8
  {
    e.parity(secret[..8])
  }

  ghost function Encrypted(e: BlockCipher, secret: seq<Byte>, msg: seq<Byte>): string
    requires Blocks(e) && |secret| >= 8
  {
    Encode(Enciphered(e, KeyBlock(e, secret), KeyBlock(e, secret), msg))
  }

  /** The memory from the decoded buffer on, as long as the base64 text was: the decoded bytes, then
      whatever lies beyond. */
  function Memory(decoded: seq<Byte>, beyond: nat -> Byte, size: nat): (m: seq<Byte>)
    requires |decoded| <= size
    ensures |m| == size && decoded <= m
    ensures forall j | |decoded| <= j < size :: m[j] == beyond(j - |decoded|)
  {
    decoded + seq(size - |decoded|, i requires 0 <= i < size - |decoded| => beyond(i))
  }

  ghost function Decrypted(e: BlockCipher, secret: seq<Byte>, msg: string, beyond: nat -> Byte): Option<seq<Byte>>
    requires Blocks(e) && |secret| >= 8
  {
    match Decode(msg)
    case None => None
    case Some(decoded) =>
      Some(Deciphered(e, KeyBlock(e, secret), KeyBlock(e, secret), Memory(decoded, beyond, |msg|)))
  }

  /** The block whose encipherment masks byte `i`. */
  lemma MaskIs(e: BlockCipher, k: seq<Byte>, c: seq<Byte>, i: nat)
    requires Blocks(e) && |k| == 8 && i < |c|
    ensures i / 8 * 8 <= |c| && (i >= 8 ==> i / 8 * 8 >= 8)
    ensures Mask(e, k, k, c, i) == e.block(k, if i < 8 then k else c[i / 8 * 8 - 8..i / 8 * 8])[i % 8]
  {
  }

  lemma MaskedByte(p: Byte, c: Byte, mask: Byte)
    requires c == Xor(p, mask)
    ensures c == p ^ mask && p == c ^ mask
  {
  }

  lemma CfbByteIs(e: BlockCipher, k: seq<Byte>, p: seq<Byte>, c: seq<Byte>, i: nat)
    requires Blocks(e) && |k| == 8 && IsCfb(e, k, k, p, c) && i < |c|
    ensures |p| == |c| && i / 8 * 8 <= |c| && (i >= 8 ==> i / 8 * 8 >= 8)
    ensures c[i] == p[i] ^ e.block(k, if i < 8 then k else c[i / 8 * 8 - 8..i / 8 * 8])[i % 8]
    ensures p[i] == c[i] ^ e.block(k, if i < 8 then k else c[i / 8 * 8 - 8..i / 8 * 8])[i % 8]
  {
    MaskIs(e, k, c, i);
    assert c[i] == Xor(p[i], Mask(e, k, k, c, i));
    MaskedByte(p[i], c[i], Mask(e, k, k, c, i));
    hide *;
  }

  lemma EncryptedIs(e: BlockCipher, secret: seq<Byte>, msg: seq<Byte>)
    requires Blocks(e) && |secret| >= 8
    ensures var k := e.parity(secret[..8]);
            var c := Enciphered(e, k, k, msg);
            Decode(Encrypted(e, secret, msg)) == Some(c) && |c| == |msg| && IsCfb(e, k, k, msg, c)
  {
    RoundTrip(Enciphered(e, KeyBlock(e, secret), KeyBlock(e, secret), msg));
    hide Decode;
    hide Encode;
    hide Enciphered;
  }

  /** What goes out: base64 of as many bytes as the text has, each masked with a byte of an enciphered
      block. The key is the first eight bytes of the secret in odd parity; the blocks are that key again,
      then every eight bytes sent. */
  lemma EncryptedBytes(e: BlockCipher, secret: seq<Byte>, msg: seq<Byte>, i: nat) returns (c: seq<Byte>)
    requires Blocks(e) && |secret| >= 8
    ensures Decode(Encrypted(e, secret, msg)) == Some(c) && |c| == |msg|
    ensures i < |msg| ==>
              var k := e.parity(secret[..8]);
              && i / 8 * 8 <= |c| && (i >= 8 ==> i / 8 * 8 >= 8)
              && c[i] == msg[i] ^ e.block(k, if i < 8 then k else c[i / 8 * 8 - 8..i / 8 * 8])[i % 8]
  {
    var k := e.parity(secret[..8]);
    EncryptedIs(e, secret, msg);
    c := Enciphered(e, k, k, msg);
    hide *;
    if i < |msg| {
      CfbByteIs(e, k, msg, c, i);
    }
  }

  lemma DecryptedIs(e: BlockCipher, secret: seq<Byte>, msg: string, beyond: nat -> Byte)
    requires Blocks(e) && |secret| >= 8
    ensures var k := e.parity(secret[..8]);
            match Decode(msg)
            case None => Decrypted(e, secret, msg, beyond).None?
            case Some(d) =>
              var m := Memory(d, beyond, |msg|);
              var p := Deciphered(e, k, k, m);
              && Decrypted(e, secret, msg, beyond) == Some(p) && |p| == |m| && IsCfb(e, k, k, p, m)
              && d <= m && forall j | |d| <= j < |msg| :: m[j] == beyond(j - |d|)
  {
    hide Memory;
    hide Decode;
    hide Deciphered;
  }

  /** What is read: as many bytes as the incoming text has characters. They come from `m`, the decoded
      bytes and then those in the memory behind them, masked in the same way. A text that does not decode
      is undefined. */
  lemma DecryptedBytes(e: BlockCipher, secret: seq<Byte>, msg: string, beyond: nat -> Byte, i: nat)
    returns (m: seq<Byte>, p: seq<Byte>)
    requires Blocks(e) && |secret| >= 8
    ensures match Decode(msg)
            case None => Decrypted(e, secret, msg, beyond).None?
            case Some(d) =>
              && Decrypted(e, secret, msg, beyond) == Some(p) && |p| == |m| == |msg|
              && d <= m && forall j | |d| <= j < |msg| :: m[j] == beyond(j - |d|)
    ensures Decode(msg).Some? && i < |msg| ==>
              var k := e.parity(secret[..8]);
              && i / 8 * 8 <= |m| && (i >= 8 ==> i / 8 * 8 >= 8)
              && p[i] == m[i] ^ e.block(k, if i < 8 then k else m[i / 8 * 8 - 8..i / 8 * 8])[i % 8]
  {
    var k := e.parity(secret[..8]);
    DecryptedIs(e, secret, msg, beyond);
    m, p := [], [];
    if Decode(msg).Some? {
      m := Memory(Decode(msg).value, beyond, |msg|);
      p := Deciphered(e, k, k, m);
      hide *;
      if i < |msg| {
        CfbByteIs(e, k, p, m, i);
      }
    }
  }

  /** The key set-up both directions share. */
  method SetKey(e: BlockCipher, secret: seq<Byte>) returns (key2: array<Byte>)
    requires Blocks(e) && |secret| >= 8
    ensures fresh(key2) && key2.Length == 8 && key2[..] == KeyBlock(e, secret)
  {
    key2 := new Byte[8](k requires 0 <= k < 8 => secret[k]);
    assert key2[..] == secret[..8];
    var odd := e.parity(key2[..]);
    forall k | 0 <= k < 8 {
      key2[k] := odd[k];
    }
  }

  /** `des_encrypt` */
  method DesEncrypt(e: BlockCipher, secret: seq<Byte>, msg: array<Byte>, size: nat) returns (encoded: string)
    requires Blocks(e) && |secret| >= 8 && size <= msg.Length
    ensures encoded == Encrypted(e, secret, msg[..size])
  {
    hide IsCfb;
    var res := new Byte[size](_ => 0);
    var key2 := SetKey(e, secret);
    var schedule := key2[..];
    Cfb64(e, schedule, msg, res, size, key2, true);
    assert res[..size] == res[..];
    OneCiphertext(e, schedule, schedule, msg[..size], res[..], Enciphered(e, schedule, schedule, msg[..size]));
    encoded := Encode(res[..]);
  }

  /** `des_decrypt`: deciphers as many bytes as the base64 text has, not as it decodes to. */
  method DesDecrypt(e: BlockCipher, secret: seq<Byte>, msg: string, beyond: nat -> Byte)
    returns (res: Option<seq<Byte>>)
    requires Blocks(e) && |secret| >= 8
    ensures res == Decrypted(e, secret, msg, beyond)
    ensures res.Some? ==> |res.value| == |msg|
  {
    hide IsCfb;
    var decoded := Decode(msg);
    if decoded.None? {
      return None;
    }
    var memory := Memory(decoded.value, beyond, |msg|);
    var input := new Byte[|msg|](k requires 0 <= k < |msg| => memory[k]);
    var output := new Byte[|msg|](_ => 0);
    var key2 := SetKey(e, secret);
    var schedule := key2[..];
    Cfb64(e, schedule, input, output, |msg|, key2, false);
    assert input[..|msg|] == memory;
    OnePlaintext(e, schedule, schedule, output[..|msg|], Deciphered(e, schedule, schedule, memory), memory);
    return Some(output[..|msg|]);
  }

  // ---- messages ----

  /** What `%s` prints of `m`, if a NUL ends it. */
  function Text(m: seq<Byte>): Option<seq<Byte>> {
    if m == [] then None
    else if m[0] == 0 then Some([])
    else
      match Text(m[1..])
      case None => None
      case Some(t) => Some([m[0]] + t)
  }

  /** It is what stands before the first NUL, if there is one. */
  lemma {:induction false} TextFound(m: seq<Byte>)
    ensures Text(m).Some? <==> 0 in m
    ensures Text(m).Some? ==> 0 !in Text(m).value && Text(m).value + [0] <= m
  {
    if m != [] && m[0] != 0 {
      TextFound(m[1..]);
      assert m == [m[0]] + m[1..];
    }
  }

  lemma {:induction false} TextOfTerminated(text: seq<Byte>, more: seq<Byte>)
    requires 0 !in text
    ensures Text(text + [0] + more) == Some(text)
  {
    var m := text + [0] + more;
    if text != [] {
      assert m[1..] == text[1..] + [0] + more;
      TextOfTerminated(text[1..], more);
      assert m[0] == text[0] && [text[0]] + text[1..] == text;
    }
  }

  /** `%s` prints exactly the NUL-free texts that, with a NUL, begin the memory. */
  lemma {:induction false} TextIff(m: seq<Byte>, text: seq<Byte>)
    requires 0 !in text
    ensures Text(m) == Some(text) <==> text + [0] <= m
  {
    if text + [0] <= m {
      TextOfTerminated(text, m[|text| + 1..]);
      assert m == text + [0] + m[|text| + 1..];
    } else if Text(m) == Some(text) {
      TextBegins(m, text);
      assert false;
    }
  }

  lemma {:induction false} TextBegins(m: seq<Byte>, text: seq<Byte>)
    requires Text(m) == Some(text)
    ensures text + [0] <= m
  {
    if m[0] != 0 {
      TextBegins(m[1..], text[1..]);
      assert m == [m[0]] + m[1..] && text + [0] == [m[0]] + (text[1..] + [0]);
    }
  }

  // ---- two secrets ----

  /** Sent under `secret`, the text is read back under `other`. */
  ghost predicate ReadBack(e: BlockCipher, secret: seq<Byte>, other: seq<Byte>, text: seq<Byte>, beyond: nat -> Byte)
    requires Blocks(e) && |secret| >= 8 && |other| >= 8
  {
    var r := Decrypted(e, other, Encrypted(e, secret, text + [0]), beyond);
    r.Some? && Text(r.value) == Some(text)
  }

  /** On the ciphertext of the text and its NUL under the key block `a`, the key block `b` yields the
      same masks. */
  ghost predicate MasksAgree(e: BlockCipher, a: seq<Byte>, b: seq<Byte>, text: seq<Byte>)
    requires Blocks(e) && |a| == 8 && |b| == 8
  {
    var c := Enciphered(e, a, a, text + [0]);
    forall i | 0 <= i <= |text| :: Mask(e, a, a, c, i) == Mask(e, b, b, c, i)
  }

  lemma XorBack(p: Byte, a: Byte)
    ensures Xor(p, Xor(p, a)) == a
  {
  }

  lemma XorCancels(p: Byte, q: Byte, a: Byte, b: Byte)
    requires Xor(p, a) == Xor(q, b)
    ensures p == q <==> a == b
  {
    XorBack(p, a);
    XorBack(q, b);
    XorTwice(p, a);
    XorTwice(q, b);
    hide Xor;
  }

  /** Deciphering `c` and more with another key block gives the plaintext first exactly where the
      masks agree. */
  lemma DecipheredOtherwise(e: BlockCipher, a: seq<Byte>, b: seq<Byte>, p: seq<Byte>, m: seq<Byte>, i: nat)
    requires Blocks(e) && |a| == 8 && |b| == 8 && Enciphered(e, a, a, p) <= m && i < |p|
    ensures var c := Enciphered(e, a, a, p);
            Deciphered(e, b, b, m)[i] == p[i] <==> Mask(e, a, a, c, i) == Mask(e, b, b, c, i)
  {
    var c, q := Enciphered(e, a, a, p), Deciphered(e, b, b, m);
    MaskOfPrefix(e, b, b, c, m, |c|, i);
    assert c[i] == m[i];
    XorCancels(p[i], q[i], Mask(e, a, a, c, i), Mask(e, b, b, c, i));
  }

  /** Under one and the same cipher, a text is read back with another secret if and only if the masks
      of the two agree from its first byte to its NUL. */
  lemma ReadBackExactly(e: BlockCipher, secret: seq<Byte>, other: seq<Byte>, text: seq<Byte>, beyond: nat -> Byte)
    requires Blocks(e) && |secret| >= 8 && |other| >= 8 && 0 !in text
    ensures ReadBack(e, secret, other, text, beyond) <==>
            MasksAgree(e, KeyBlock(e, secret), KeyBlock(e, other), text)
  {
    var a, b, p := KeyBlock(e, secret), KeyBlock(e, other), text + [0];
    var c := Enciphered(e, a, a, p);
    RoundTrip(c);
    var m := Memory(c, beyond, |Encode(c)|);
    var q := Deciphered(e, b, b, m);
    TextIff(q, text);
    forall i | 0 <= i < |p|
      ensures q[i] == p[i] <==> Mask(e, a, a, c, i) == Mask(e, b, b, c, i)
    {
      DecipheredOtherwise(e, a, b, p, m, i);
    }
    hide Mask;
    hide IsCfb;
    assert p <= q <==> forall i | 0 <= i < |p| :: q[i] == p[i];
  }

  /** The message round trip: a text sent with its NUL is read back whatever lies beyond the decoded
      bytes. */
  lemma MessageRoundTrip(e: BlockCipher, secret: seq<Byte>, text: seq<Byte>, beyond: nat -> Byte)
    requires Blocks(e) && |secret| >= 8 && 0 !in text
    ensures var r := Decrypted(e, secret, Encrypted(e, secret, text + [0]), beyond);
            r.Some? && Text(r.value) == Some(text)
  {
    ReadBackExactly(e, secret, secret, text, beyond);
  }

  /** The masks of the first block are the key block enciphered with itself. */
  lemma FirstMasks(e: BlockCipher, key: seq<Byte>, c: seq<Byte>, i: nat)
    requires Blocks(e) && |key| == 8 && i < 8
    ensures Mask(e, key, key, c, i) == e.block(key, key)[i]
  {
  }

  /** So texts of up to seven bytes are read back, whatever they say, if and only if the two key blocks
      enciphered with themselves agree for as long as the text and its NUL last. */
  lemma ShortTextReadBackIff(e: BlockCipher, secret: seq<Byte>, other: seq<Byte>, text: seq<Byte>, beyond: nat -> Byte)
    requires Blocks(e) && |secret| >= 8 && |other| >= 8 && 0 !in text && |text| < 8
    ensures var a, b := KeyBlock(e, secret), KeyBlock(e, other);
            ReadBack(e, secret, other, text, beyond) <==>
            e.block(a, a)[..|text| + 1] == e.block(b, b)[..|text| + 1]
  {
    var a, b := KeyBlock(e, secret), KeyBlock(e, other);
    var c := Enciphered(e, a, a, text + [0]);
    var x, y := e.block(a, a)[..|text| + 1], e.block(b, b)[..|text| + 1];
    ReadBackExactly(e, secret, other, text, beyond);
    forall i | 0 <= i <= |text|
      ensures Mask(e, a, a, c, i) == x[i] && Mask(e, b, b, c, i) == y[i]
    {
      FirstMasks(e, a, c, i);
      FirstMasks(e, b, c, i);
    }
    assert x == y <==> forall i | 0 <= i <= |text| :: x[i] == y[i];
  }

  /** And every text long enough to reach a byte where they differ is misread. */
  lemma Misread(e: BlockCipher, secret: seq<Byte>, other: seq<Byte>, text: seq<Byte>, beyond: nat -> Byte, i: nat)
    requires Blocks(e) && |secret| >= 8 && |other| >= 8 && 0 !in text && i < 8 && i <= |text|
    requires var a, b := KeyBlock(e, secret), KeyBlock(e, other); e.block(a, a)[i] != e.block(b, b)[i]
    ensures !ReadBack(e, secret, other, text, beyond)
  {
    var a, b := KeyBlock(e, secret), KeyBlock(e, other);
    var c := Enciphered(e, a, a, text + [0]);
    ReadBackExactly(e, secret, other, text, beyond);
    FirstMasks(e, a, c, i);
    FirstMasks(e, b, c, i);
  }

  /** A cipher whose every mask is the key. */
  function KeyAsMask(): BlockCipher {
    BlockCipher(k => k, (k, x) => if |k| == 8 then k else x)
  }

  lemma KeyAsMaskBlocks()
    ensures Blocks(KeyAsMask())
  {
  }

  lemma KeyBytesNeeded(secret: seq<Byte>, other: seq<Byte>, text: seq<Byte>, beyond: nat -> Byte)
    requires Blocks(KeyAsMask()) && |secret| >= 8 && |other| >= 8 && 0 !in text && |text| == 7
    requires ReadBack(KeyAsMask(), secret, other, text, beyond)
    ensures secret[..8] == other[..8]
  {
    var e := KeyAsMask();
    var a, b := KeyBlock(e, secret), KeyBlock(e, other);
    assert a == secret[..8] && b == other[..8] && e.block(a, a) == a && e.block(b, b) == b;
    hide KeyAsMask;
    hide ReadBack;
    hide KeyBlock;
    ShortTextReadBackIff(e, secret, other, text, beyond);
    assert a[..8] == a && b[..8] == b;
  }

  /** Every text is read back under every cipher if and only if the first eight bytes of the two
      secrets agree. */
  lemma ReadBackIff(secret: seq<Byte>, other: seq<Byte>)
    requires |secret| >= 8 && |other| >= 8
    ensures (forall e, text, beyond | Blocks(e) && 0 !in text :: ReadBack(e, secret, other, text, beyond))
            <==> secret[..8] == other[..8]
  {
    if secret[..8] == other[..8] {
      forall e, text, beyond | Blocks(e) && 0 !in text
        ensures ReadBack(e, secret, other, text, beyond)
      {
        assert KeyBlock(e, secret) == KeyBlock(e, other);
        ReadBackExactly(e, secret, other, text, beyond);
        hide ReadBack;
      }
    }
    if forall e, text, beyond | Blocks(e) && 0 !in text :: ReadBack(e, secret, other, text, beyond) {
      var e, beyond: nat -> Byte := KeyAsMask(), _ => 0;
      var text: seq<Byte> := [1, 1, 1, 1, 1, 1, 1];
      assert Blocks(e);
      assert ReadBack(e, secret, other, text, beyond);
      KeyBytesNeeded(secret, other, text, beyond);
    }
  }

  lemma NothingEnciphered(e: BlockCipher, key: seq<Byte>, iv: seq<Byte>)
    requires Blocks(e) && |key| == 8 && |iv| == 8
    ensures IsCfb(e, key, iv, [], []) && Register(e, key, iv, []) == iv
  {
  }
}
