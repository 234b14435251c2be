/** What the core takes from its host: the wall clock (PHP `time()`) and the
    MD5 digest function of RFC 1321, which the model does not implement and
    treats as an arbitrary function from text to its hex digest. */
module Host {

  datatype Env = Env(now: nat, md5: string -> string)

  /** PHP `md5()` prints the 128-bit digest as 32 lower-case hex digits. */
  predicate IsHexDigest(s: string) {
    |s| == 32 && forall i :: 0 <= i < |s| ==> s[i] in "0123456789abcdef"
  }

  /** An environment whose digest function prints digests as PHP does. */
  ghost predicate HexDigests(env: Env) {
    forall s :: IsHexDigest(env.md5(s))
  }
}
