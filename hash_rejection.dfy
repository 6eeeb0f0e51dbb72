/**
 * How a rejected token value surfaces at the boundary: the IllegalArgumentException
 * that `hash` throws, if thrown while a request is handled, is answered by the
 * IllegalArgument handler.
 */
module HashRejection {
  import opened Wrappers
  import opened Envelopes
  import TokenHashing
  import ApiExceptionHandler

  /** A rejected token value, if thrown while a request is handled, reaches the client
      as a 400 validation error carrying the thrown message. */
  lemma RejectedValueIsBadRequest(h: TokenHashing.TokenHasher, digest: TokenHashing.Digest, value: Option<string>)
    requires h.Valid()
    ensures h.Hash(digest, value).Failure? ==>
      ApiExceptionHandler.Handle(h.Hash(digest, value).error)
        == ApiExceptionHandler.Response(400, Of(VALIDATION_ERROR, Some(TokenHashing.BlankValue)))
  {
  }
}
