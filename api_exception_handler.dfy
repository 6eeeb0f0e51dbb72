/**
 * The boundary's exception handling: every exception kind is turned into an HTTP
 * status and an error envelope.
 */
module ApiExceptionHandler {
  import opened Wrappers
  import opened Exceptions
  import opened Envelopes

  const BadRequest: nat := 400
  const NotFound: nat := 404
  const InternalServerError: nat := 500

  const NotFoundMessage := "The requested resource was not found"
  const ValidationFailedMessage := "Validation failed"
  const UnexpectedMessage := "An unexpected error occurred"

  datatype Response = Response(status: nat, body: ErrorEnvelope)

  /** The names of the rejected fields. */
  function Fields(errors: seq<FieldError>): set<string>
  {
    set i | 0 <= i < |errors| :: errors[i].field
  }

  /** The details map of a validation failure: each field error put in turn, so a later
      error for a field overwrites an earlier one. */
  function FieldErrorDetails(errors: seq<FieldError>): (d: Details)
    ensures d.Keys == Fields(errors)
  {
    if errors == [] then map[]
    else
      var init, last := errors[..|errors| - 1], errors[|errors| - 1];
      assert Fields(errors) == Fields(init) + {last.field} by {
        assert forall i :: 0 <= i < |init| ==> init[i] == errors[i];
      }
      FieldErrorDetails(init)[last.field := last.defaultMessage]
  }

  /** The handlers, one case each, as a single mapping from exception kind to response. */
  function Handle(ex: Exception): (r: Response)
    ensures r.body.error.code in {VALIDATION_ERROR, NOT_FOUND, INTERNAL}
    ensures r.status == NotFound <==> r.body.error.code == NOT_FOUND
    ensures r.status == BadRequest <==> r.body.error.code == VALIDATION_ERROR
    ensures r.status == InternalServerError <==> r.body.error.code == INTERNAL
    ensures r.body.error.code == VALIDATION_ERROR <==> ex.MethodArgumentNotValid? || ex.IllegalArgument?
    ensures r.body.error.code == NOT_FOUND <==> ex.NoHandlerFound? || ex.NoResourceFound?
    ensures !ex.MethodArgumentNotValid? ==> r.body.error.details == map[]
    ensures ex.MethodArgumentNotValid? ==> r.body.error.details.Keys == Fields(ex.fieldErrors)
    ensures ex.MethodArgumentNotValid? ==> r.body.error.message == Some(ValidationFailedMessage)
    ensures ex.IllegalArgument? ==> r.body.error.message == ex.message
  {
    match ex
    case NoHandlerFound => Response(NotFound, Of(NOT_FOUND, Some(NotFoundMessage)))
    case NoResourceFound => Response(NotFound, Of(NOT_FOUND, Some(NotFoundMessage)))
    case MethodArgumentNotValid(errors) =>
      Response(BadRequest, OfDetails(VALIDATION_ERROR, Some(ValidationFailedMessage), FieldErrorDetails(errors)))
    case IllegalArgument(message) => Response(BadRequest, Of(VALIDATION_ERROR, message))
    case Other(_) => Response(InternalServerError, Of(INTERNAL, Some(UnexpectedMessage)))
  }

  /** handleValidation: builds the details map by putting the field errors one by one. */
  method HandleValidation(fieldErrors: seq<FieldError>) returns (r: Response)
    ensures r == Handle(MethodArgumentNotValid(fieldErrors))
  {
    var details: Details := map[];
    var i := 0;
    while i < |fieldErrors|
      invariant 0 <= i <= |fieldErrors|
      invariant details == FieldErrorDetails(fieldErrors[..i])
    {
      assert fieldErrors[..i + 1][..i] == fieldErrors[..i];
      details := details[fieldErrors[i].field := fieldErrors[i].defaultMessage];
      i := i + 1;
    }
    assert fieldErrors[..i] == fieldErrors;
    r := Response(BadRequest, OfDetails(VALIDATION_ERROR, Some(ValidationFailedMessage), details));
  }

  /** errors[i] is the last error for `field`. */
  predicate IsLastErrorFor(errors: seq<FieldError>, i: int, field: string)
  {
    0 <= i < |errors| && errors[i].field == field
    && forall j :: i < j < |errors| ==> errors[j].field != field
  }

  /** Last write wins: a field's entry is the message of its last error. */
  lemma {:induction false} LastWriteWins(errors: seq<FieldError>, i: int, field: string)
    requires IsLastErrorFor(errors, i, field)
    ensures field in FieldErrorDetails(errors)
    ensures FieldErrorDetails(errors)[field] == errors[i].defaultMessage
  {
    if i < |errors| - 1 {
      var init := errors[..|errors| - 1];
      LastWriteWins(init, i, field);
    }
  }

  /** Every entry comes from a field error: the last one for that field. */
  lemma {:induction false} EntryIsLastError(errors: seq<FieldError>, field: string)
    requires field in FieldErrorDetails(errors)
    ensures exists i :: IsLastErrorFor(errors, i, field) && FieldErrorDetails(errors)[field] == errors[i].defaultMessage
  {
    var last := |errors| - 1;
    if errors[last].field == field {
      assert IsLastErrorFor(errors, last, field);
    } else {
      var init := errors[..last];
      EntryIsLastError(init, field);
      var i :| IsLastErrorFor(init, i, field) && FieldErrorDetails(init)[field] == init[i].defaultMessage;
      assert IsLastErrorFor(errors, i, field);
    }
  }

  /** One entry per distinct field. */
  lemma OneEntryPerField(errors: seq<FieldError>)
    ensures |FieldErrorDetails(errors)| == |Fields(errors)|
  {
  }

  /** Both not-found kinds get the same 404 response. */
  lemma NotFoundResponse(ex: Exception)
    requires ex.NoHandlerFound? || ex.NoResourceFound?
    ensures Handle(ex) == Response(NotFound, OfDetails(NOT_FOUND, Some(NotFoundMessage), map[]))
  {
  }

  /** Every other exception gets a fixed 500 response that reveals nothing of it. */
  lemma GenericResponse(m1: Option<string>, m2: Option<string>)
    ensures Handle(Other(m1)) == Handle(Other(m2))
    ensures Handle(Other(m1)).status == InternalServerError
    ensures Handle(Other(m1)).body.error.message == Some(UnexpectedMessage)
  {
  }

  /** The reserved codes are never emitted. */
  lemma ReservedCodesUnused(ex: Exception)
    ensures Handle(ex).body.error.code !in {UNAUTHORIZED, FORBIDDEN, CONFLICT, RATE_LIMITED}
  {
  }
}
