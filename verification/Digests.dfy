/** The two digests a Hotline login can negotiate, as instances of the hash every key is built with. */
module Digests {
  import opened Hmac
  import Md5
  import Sha1

  const MD5_HASH := Hash(64, 16, Md5.Digested)
  const SHA1_HASH := Hash(64, 20, Sha1.Digested)

  lemma DigestsAreHashes()
    ensures MD5_HASH.Valid() && SHA1_HASH.Valid()
  {
    hide Md5.Digested, Sha1.Digested;
  }
}
