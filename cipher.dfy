/** A stand-in for the platform's "AES/GCM/NoPadding" cipher under a key-store key.
    The real cipher is opaque to the model; what the controller relies on is only that
    decrypting with the same key and initialisation vector gives the plaintext back. */
module Cipher {
  import opened Text

  /** The key-stream byte mixed into position `i` under key material `secret` and vector `iv`. */
  function KeystreamByte(secret: int, iv: seq<byte>, i: nat): byte
  {
    (secret + 31 * i + (if |iv| == 0 then 0 else iv[i % |iv|])) % 256
  }

  function Encrypt(secret: int, iv: seq<byte>, plain: seq<byte>): (c: seq<byte>)
    ensures |c| == |plain|
  {
    seq(|plain|, i requires 0 <= i < |plain| => ((plain[i] as int + KeystreamByte(secret, iv, i) as int) % 256) as byte)
  }

  function Decrypt(secret: int, iv: seq<byte>, c: seq<byte>): (p: seq<byte>)
    ensures |p| == |c|
  {
    seq(|c|, i requires 0 <= i < |c| => ((c[i] as int - KeystreamByte(secret, iv, i) as int) % 256) as byte)
  }

  /** Decrypting under the same key and vector undoes encryption. */
  lemma DecryptEncrypt(secret: int, iv: seq<byte>, plain: seq<byte>)
    ensures Decrypt(secret, iv, Encrypt(secret, iv, plain)) == plain
  {
    var c := Encrypt(secret, iv, plain);
    forall i | 0 <= i < |plain|
      ensures Decrypt(secret, iv, c)[i] == plain[i]
    {
      var k := KeystreamByte(secret, iv, i);
      var s := plain[i] as int + k as int;
      assert c[i] == s % 256;
      assert s % 256 == s || s % 256 == s - 256;
    }
  }
}
