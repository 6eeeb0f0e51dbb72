/** The uniform error body: one ErrorDetail (code, message, details) under `error`. */
module Envelopes {
  import opened Wrappers

  /** The error taxonomy. */
  datatype ErrorCode =
    | VALIDATION_ERROR
    | UNAUTHORIZED
    | FORBIDDEN
    | NOT_FOUND
    | CONFLICT
    | RATE_LIMITED
    | INTERNAL

  /** Extra information by key; a value may be null. */
  type Details = map<string, Option<string>>

  datatype ErrorDetail = ErrorDetail(code: ErrorCode, message: Option<string>, details: Details)

  datatype ErrorEnvelope = ErrorEnvelope(error: ErrorDetail)

  /** The two-argument ErrorDetail constructor: no details. */
  function Detail(code: ErrorCode, message: Option<string>): (d: ErrorDetail)
    ensures d.code == code && d.message == message && d.details == map[]
  {
    ErrorDetail(code, message, map[])
  }

  /** of(code, message). */
  function Of(code: ErrorCode, message: Option<string>): (e: ErrorEnvelope)
    ensures e.error.code == code && e.error.message == message && e.error.details == map[]
  {
    ErrorEnvelope(Detail(code, message))
  }

  /** of(code, message, details). */
  function OfDetails(code: ErrorCode, message: Option<string>, details: Details): (e: ErrorEnvelope)
    ensures e.error.code == code && e.error.message == message && e.error.details == details
  {
    ErrorEnvelope(ErrorDetail(code, message, details))
  }

  /** The short factory is the long one with empty details. */
  lemma OfIsOfDetailsEmpty(code: ErrorCode, message: Option<string>)
    ensures Of(code, message) == OfDetails(code, message, map[])
  {
  }

  /** The long factory loses nothing: equal envelopes come from equal arguments,
      and every envelope is the one built from its own components. */
  lemma OfDetailsInjective(c1: ErrorCode, m1: Option<string>, d1: Details, c2: ErrorCode, m2: Option<string>, d2: Details)
    requires OfDetails(c1, m1, d1) == OfDetails(c2, m2, d2)
    ensures c1 == c2 && m1 == m2 && d1 == d2
  {
  }

  lemma EnvelopeIsOfDetails(e: ErrorEnvelope)
    ensures e == OfDetails(e.error.code, e.error.message, e.error.details)
  {
  }
}
