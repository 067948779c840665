/** HMAC (section 2 of RFC 2104) over any one-shot digest, and the login key schedule built on it. */
module Hmac {
  import opened Endian

  /** The digest a template instance is built over: block size, digest size, and the function. */
  datatype Hash = Hash(blockSize: nat, digestSize: nat, digest: Bytes -> Bytes) {
    ghost predicate Valid() {
      && 0 < digestSize <= blockSize
      && forall m: Bytes :: |digest(m)| == digestSize
    }
  }

  /** The key as one block: hashed first when it is too long, then padded with zeros. */
  function KeyBlock(h: Hash, key: Bytes): (k: Bytes)
    requires h.Valid()
    ensures |k| == h.blockSize
  {
    var short := if |key| > h.blockSize then h.digest(key) else key;
    short + Zeros(h.blockSize - |short|)
  }

  function Pad(block: Bytes, mask: byte): (p: Bytes)
    ensures |p| == |block|
  {
    seq(|block|, i requires 0 <= i < |block| => XorByte(block[i], mask))
  }

  function Mac(h: Hash, key: Bytes, message: Bytes): (m: Bytes)
    requires h.Valid()
    ensures |m| == h.digestSize
  {
    var k := KeyBlock(h, key);
    h.digest(Pad(k, 0x5C) + h.digest(Pad(k, 0x36) + message))
  }

  /** The block the key is copied into. */
  method LoadKey(h: Hash, key: Bytes) returns (k: array<byte>)
    requires h.Valid()
    ensures fresh(k) && k.Length == h.blockSize && k[..] == KeyBlock(h, key)
  {
    k := new byte[h.blockSize](_ => 0);
    var source := key;
    if |key| > h.blockSize {
      source := h.digest(key);
    }
    for i := 0 to |source|
      invariant forall x :: 0 <= x < h.blockSize ==> k[x] == if x < i then source[x] else 0
    {
      k[i] := source[i];
    }
  }

  method ComputeMac(h: Hash, key: Bytes, message: Bytes) returns (m: Bytes)
    requires h.Valid()
    ensures m == Mac(h, key, message)
  {
    hide XorByte, KeyBlock;
    var k := LoadKey(h, key);
    var inner := new byte[h.blockSize](_ => 0);
    var outer := new byte[h.blockSize](_ => 0);
    ghost var block := k[..];
    for i := 0 to h.blockSize
      invariant k[..] == block
      invariant forall x :: 0 <= x < i ==> inner[x] == XorByte(block[x], 0x36)
      invariant forall x :: 0 <= x < i ==> outer[x] == XorByte(block[x], 0x5C)
    {
      inner[i] := XorByte(k[i], 0x36);
      outer[i] := XorByte(k[i], 0x5C);
    }
    assert inner[..] == Pad(block, 0x36);
    assert outer[..] == Pad(block, 0x5C);

    var first := h.digest(inner[..] + message);
    m := h.digest(outer[..] + first);
  }

  /**
   * The definition of section 2 of RFC 2104 byte by byte: the key, hashed if it is longer than a block
   * and zeros behind it, masked with 0x36 before the message and with 0x5C before the inner digest.
   */
  lemma MacIsNested(h: Hash, key: Bytes, message: Bytes) returns (inner: Bytes, outer: Bytes)
    requires h.Valid()
    ensures |inner| == |outer| == h.blockSize
    ensures var k := if |key| > h.blockSize then h.digest(key) else key;
            forall i :: 0 <= i < h.blockSize ==>
              && inner[i] == XorByte(if i < |k| then k[i] else 0, 0x36)
              && outer[i] == XorByte(if i < |k| then k[i] else 0, 0x5C)
    ensures Mac(h, key, message) == h.digest(outer + h.digest(inner + message))
  {
    hide XorByte;
    inner, outer := Pad(KeyBlock(h, key), 0x36), Pad(KeyBlock(h, key), 0x5C);
  }

  // ------------------------------------------------------------------
  // The login key schedule
  // ------------------------------------------------------------------

  datatype LoginKeys = LoginKeys(first: Bytes, second: Bytes)

  function Derived(h: Hash, password: Bytes, session: Bytes): LoginKeys
    requires h.Valid()
  {
    var first := Mac(h, password, Mac(h, password, session));
    LoginKeys(first, Mac(h, password, first))
  }

  method DeriveLoginKeys(h: Hash, password: Bytes, session: Bytes) returns (keys: LoginKeys)
    requires h.Valid()
    ensures keys == Derived(h, password, session)
    ensures |keys.first| == |keys.second| == h.digestSize
    ensures keys.first == Mac(h, password, Mac(h, password, session))
    ensures keys.second == Mac(h, password, keys.first)
  {
    var first := ComputeMac(h, password, session);
    first := ComputeMac(h, password, first);
    var second := ComputeMac(h, password, first);
    keys := LoginKeys(first, second);
  }

  /** The key after `rounds` replacements by the MAC of itself under the session key. */
  function Permuted(h: Hash, key: Bytes, session: Bytes, rounds: nat): (k: Bytes)
    requires h.Valid()
    ensures |key| == h.digestSize ==> |k| == h.digestSize
    ensures rounds > 0 ==> |k| == h.digestSize
  {
    if rounds == 0 then key else Mac(h, session, Permuted(h, key, session, rounds - 1))
  }

  method PermuteKey(h: Hash, key: Bytes, session: Bytes, rounds: nat) returns (k: Bytes)
    requires h.Valid()
    ensures k == Permuted(h, key, session, rounds)
    ensures rounds == 1 ==> k == Mac(h, session, key)
  {
    hide Mac;
    PermuteOnce(h, key, session);
    k := key;
    var left := rounds;
    ghost var done := 0;
    while left > 0
      invariant left + done == rounds
      invariant k == Permuted(h, key, session, done)
    {
      k := ComputeMac(h, session, k);
      left := left - 1;
      done := done + 1;
    }
  }

  /** One round is the MAC of the key under the session key. */
  lemma PermuteOnce(h: Hash, key: Bytes, session: Bytes)
    requires h.Valid()
    ensures Permuted(h, key, session, 0) == key
    ensures Permuted(h, key, session, 1) == Mac(h, session, key)
  {
    hide Mac;
  }

  /** The login keys are the session key permuted twice and three times under the password. */
  lemma LoginKeysArePermutations(h: Hash, password: Bytes, session: Bytes)
    requires h.Valid()
    ensures Derived(h, password, session).first == Permuted(h, session, password, 2)
    ensures Derived(h, password, session).second == Permuted(h, session, password, 3)
  {
    hide Mac;
    PermuteOnce(h, session, password);
    assert Permuted(h, session, password, 2) == Mac(h, password, Permuted(h, session, password, 1));
  }

  lemma {:induction false} PermuteTwice(h: Hash, key: Bytes, session: Bytes, m: nat, n: nat)
    requires h.Valid()
    ensures Permuted(h, Permuted(h, key, session, m), session, n) == Permuted(h, key, session, m + n)
  {
    hide Mac;
    if n == 0 {
    } else {
      PermuteTwice(h, key, session, m, n - 1);
    }
  }
}
