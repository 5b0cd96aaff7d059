/**
 The translation of failures into HTTP responses: each business-rule error
 becomes a fixed status with its message as the body, and a list of field
 validation errors becomes 400 with one `field: message` line per error.
 */
module GlobalExceptionHandler {
  import opened ServiceErrors

  const BAD_REQUEST: int := 400
  const CONFLICT: int := 409

  datatype Response = Response(status: int, body: string)

  /** A failed field constraint: the field's name and the constraint's default message. */
  datatype FieldError = FieldError(field: string, defaultMessage: string)

  datatype ValidationResponse = ValidationResponse(status: int, body: seq<string>)

  /**
   The four `handle…Exception` handlers: a duplicate email is a conflict,
   every other rule violation a bad request, and the body is the message.
   */
  function HandleServiceError(e: ServiceError): (r: Response)
    ensures r.status == CONFLICT <==> e.EmailAlreadyExists?
    ensures r.status == BAD_REQUEST <==> !e.EmailAlreadyExists?
    ensures r.body == Message(e)
  {
    match e
    case EmailAlreadyExists(_) => Response(CONFLICT, Message(e))
    case UserLowAge(_) => Response(BAD_REQUEST, Message(e))
    case UserNotFound(_) => Response(BAD_REQUEST, Message(e))
    case InvalidDateRange => Response(BAD_REQUEST, Message(e))
  }

  /** Every rule violation is reported as a client error. */
  lemma ServiceErrorsAreClientErrors(e: ServiceError)
    ensures 400 <= HandleServiceError(e).status < 500
  {
  }

  /** One line of the validation body. */
  function FormatFieldError(e: FieldError): (line: string)
    ensures |line| == |e.field| + 2 + |e.defaultMessage|
    ensures line[..|e.field|] == e.field && line[|e.field| + 2..] == e.defaultMessage
    ensures line[|e.field|..|e.field| + 2] == ": "
  {
    e.field + ": " + e.defaultMessage
  }

  /** The lines of the validation body, one per error, in the same order. */
  function FormatFieldErrors(errors: seq<FieldError>): (lines: seq<string>)
    ensures |lines| == |errors|
    ensures forall i :: 0 <= i < |errors| ==> lines[i] == FormatFieldError(errors[i])
  {
    if |errors| == 0 then [] else [FormatFieldError(errors[0])] + FormatFieldErrors(errors[1..])
  }

  /** `handleValidationExceptions`: status 400 and the formatted field errors. */
  function HandleValidationErrors(errors: seq<FieldError>): (r: ValidationResponse)
    ensures r.status == BAD_REQUEST
    ensures |r.body| == |errors|
    ensures forall i :: 0 <= i < |errors| ==>
      r.body[i] == errors[i].field + ": " + errors[i].defaultMessage
  {
    ValidationResponse(BAD_REQUEST, FormatFieldErrors(errors))
  }

  /** Formatting two lists of errors one after the other is formatting their concatenation. */
  lemma {:induction false} FormatFieldErrorsAppend(a: seq<FieldError>, b: seq<FieldError>)
    ensures FormatFieldErrors(a + b) == FormatFieldErrors(a) + FormatFieldErrors(b)
  {
    if |a| > 0 {
      assert (a + b)[1..] == a[1..] + b;
      FormatFieldErrorsAppend(a[1..], b);
    }
  }
}
