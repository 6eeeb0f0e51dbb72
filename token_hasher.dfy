/**
 * Salted hashing of opaque bearer tokens (invite tokens, reset tokens, API keys):
 * hash = lowercase hex of SHA-256(prefixSalt + value + suffixSalt).
 *
 * SHA-256 over the UTF-8 encoding is a library primitive; it enters the model as
 * the parameter `digest`, of which only its fixed 32-byte output is known.
 */
module TokenHashing {
  import opened Wrappers
  import opened Lang
  import opened Exceptions
  import Hex

  /** SHA-256 output length in bytes. */
  const DigestLength := 32

  /** UTF-8 encoding followed by SHA-256: some function with 32-byte results. */
  type Digest = f: string -> seq<Hex.Byte> | forall s :: |f(s)| == DigestLength
    witness (s: string) => seq(32, i => 0 as Hex.Byte)

  const PrefixSaltMissing := "ECHO_HASH_PREFIX_SALT must be configured"
  const SuffixSaltMissing := "ECHO_HASH_SUFFIX_SALT must be configured"
  const BlankValue := "Value to hash cannot be null or blank"

  /** A salt the constructor accepts: present and not blank. */
  predicate Configured(salt: Option<string>)
  {
    salt.Some? && !IsBlank(salt.value)
  }

  /** A hasher with its two deployment salts, fixed at construction. */
  datatype TokenHasher = TokenHasher(prefixSalt: string, suffixSalt: string)
  {
    /** What every constructed hasher satisfies: neither salt is blank. */
    predicate Valid()
    {
      !IsBlank(prefixSalt) && !IsBlank(suffixSalt)
    }

    /** The exact string given to the digest for `value`. */
    function Salted(value: string): string
    {
      prefixSalt + value + suffixSalt
    }

    /** hash: rejects a null or blank value, otherwise renders the digest of the
        salted value as 64 lowercase hex digits. */
    function Hash(digest: Digest, value: Option<string>): (r: Result<string, Exception>)
      requires Valid()
      ensures r.Failure? <==> value.None? || IsBlank(value.value)
      ensures r.Failure? ==> r.error == IllegalArgument(Some(BlankValue))
      ensures r.Success? ==> |r.value| == 2 * DigestLength && Hex.IsLowerHex(r.value)
      ensures r.Success? ==> Hex.ParseHex(r.value) == Some(digest(Salted(value.value)))
    {
      if value.None? || IsBlank(value.value) then Failure(IllegalArgument(Some(BlankValue)))
      else
        var bytes := digest(Salted(value.value));
        Hex.ParseFormat(bytes);
        Success(Hex.FormatHex(bytes))
    }

    /** verify: false when either argument is null; otherwise whether hashing the raw
        token gives exactly the stored string (a blank raw token makes `Hash` throw). */
    function Verify(digest: Digest, rawToken: Option<string>, storedHash: Option<string>): (r: Result<bool, Exception>)
      requires Valid()
      ensures rawToken.None? || storedHash.None? ==> r == Success(false)
      ensures r.Failure? <==> rawToken.Some? && storedHash.Some? && IsBlank(rawToken.value)
      ensures r.Failure? ==> r.error == IllegalArgument(Some(BlankValue))
      ensures r == Success(true) <==> storedHash.Some? && Hash(digest, rawToken) == Success(storedHash.value)
    {
      if rawToken.None? || storedHash.None? then Success(false)
      else match Hash(digest, rawToken)
        case Failure(e) => Failure(e)
        case Success(h) => Success(h == storedHash.value)
    }
  }

  /** The constructor: the prefix salt is checked first, then the suffix salt. */
  function New(prefixSalt: Option<string>, suffixSalt: Option<string>): (r: Result<TokenHasher, Exception>)
    ensures r.Success? <==> Configured(prefixSalt) && Configured(suffixSalt)
    ensures r.Success? ==> r.value.Valid()
    ensures r.Success? ==> r.value.prefixSalt == prefixSalt.value && r.value.suffixSalt == suffixSalt.value
    ensures !Configured(prefixSalt) ==> r == Failure(IllegalArgument(Some(PrefixSaltMissing)))
    ensures Configured(prefixSalt) && !Configured(suffixSalt) ==> r == Failure(IllegalArgument(Some(SuffixSaltMissing)))
  {
    if !Configured(prefixSalt) then Failure(IllegalArgument(Some(PrefixSaltMissing)))
    else if !Configured(suffixSalt) then Failure(IllegalArgument(Some(SuffixSaltMissing)))
    else Success(TokenHasher(prefixSalt.value, suffixSalt.value))
  }

  /** Determinism: the output depends on nothing but the salted input string, so the
      same hasher and value, or any two triples that concatenate alike, hash alike. */
  lemma HashDependsOnlyOnSaltedInput(h1: TokenHasher, h2: TokenHasher, digest: Digest, v1: string, v2: string)
    requires h1.Valid() && h2.Valid()
    requires !IsBlank(v1) && !IsBlank(v2)
    requires h1.Salted(v1) == h2.Salted(v2)
    ensures h1.Hash(digest, Some(v1)) == h2.Hash(digest, Some(v2))
  {
  }

  /** A rejected value never reaches the digest: the failure is the same whatever the digest. */
  lemma RejectedValueIgnoresDigest(h: TokenHasher, d1: Digest, d2: Digest, value: Option<string>)
    requires h.Valid()
    requires value.None? || IsBlank(value.value)
    ensures h.Hash(d1, value) == h.Hash(d2, value)
  {
  }

  /** Two values hash alike exactly when the digest maps their salted inputs alike:
      the hex rendering neither adds nor removes collisions. */
  lemma HashCollisionIsDigestCollision(h: TokenHasher, digest: Digest, v1: string, v2: string)
    requires h.Valid()
    requires !IsBlank(v1) && !IsBlank(v2)
    ensures h.Hash(digest, Some(v1)) == h.Hash(digest, Some(v2))
        <==> digest(h.Salted(v1)) == digest(h.Salted(v2))
  {
    var r1, r2 := h.Hash(digest, Some(v1)), h.Hash(digest, Some(v2));
    if digest(h.Salted(v1)) == digest(h.Salted(v2)) {
      HashDependsOnlyOnSaltedInput(h, h, digest, v1, v1);
      assert r1.value == Hex.FormatHex(digest(h.Salted(v1)));
    }
  }

  /** A token verifies against its own hash. */
  lemma VerifyOwnHash(h: TokenHasher, digest: Digest, raw: string)
    requires h.Valid()
    requires !IsBlank(raw)
    ensures h.Verify(digest, Some(raw), Some(h.Hash(digest, Some(raw)).value)) == Success(true)
  {
  }

  /** A stored string that is not 64 lowercase hex digits never verifies. */
  lemma MalformedHashNeverVerifies(h: TokenHasher, digest: Digest, raw: Option<string>, stored: string)
    requires h.Valid()
    requires |stored| != 2 * DigestLength || !Hex.IsLowerHex(stored)
    ensures h.Verify(digest, raw, Some(stored)) != Success(true)
  {
  }

  /** A successful verification pins down the digest of the salted token. */
  lemma {:induction false} VerifiedHashDecodes(h: TokenHasher, digest: Digest, raw: string, stored: string)
    requires h.Valid()
    ensures h.Verify(digest, Some(raw), Some(stored)) == Success(true) ==>
      Hex.ParseHex(stored) == Some(digest(h.Salted(raw))) && stored == Hex.FormatHex(digest(h.Salted(raw)))
  {
    if h.Verify(digest, Some(raw), Some(stored)) == Success(true) {
      Hex.FormatParse(stored);
    }
  }
}
