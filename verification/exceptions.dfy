/** `AllExceptionsFilter.catch`: every exception a route throws is turned
    into the failure envelope `{ code, success, message, error }`. The
    `timestamp` field reads the clock and is not part of this model. */
module ExceptionFilter {
  import opened JsValues
  import opened QueryBuilder

  /** What `HttpException.getResponse()` returns: a string or an object. */
  datatype ErrorResponse = TextResponse(text: string) | ObjectResponse(fields: seq<Member>)

  /** A Nest `HttpException` (or subclass), or any other thrown error. */
  datatype Exception =
    | HttpException(status: int, response: ErrorResponse, name: Json)
    | PlainError(name: Json, message: Json)

  datatype Envelope = Envelope(code: int, success: bool, message: Json, error: Json)

  /** `HttpStatus.INTERNAL_SERVER_ERROR`. */
  const InternalServerError := 500

  const GenericMessage := "Internal server error"
  const FallbackMessage := "An error occurred"
  const FallbackName := "Error"

  function Status(e: Exception): int {
    match e
    case HttpException(status, _, _) => status
    case PlainError(_, _) => InternalServerError
  }

  /** The response body the filter reads its message from; any other error
      is given the generic body `{ message: 'Internal server error' }`. */
  function ErrorBody(e: Exception): ErrorResponse {
    match e
    case HttpException(_, response, _) => response
    case PlainError(_, _) => ObjectResponse([Member("message", Str(GenericMessage))])
  }

  /** A string body is the message; an object body contributes its
      `message` property unless that is falsy. */
  function MessageOf(body: ErrorResponse): Json {
    match body
    case TextResponse(text) => Str(text)
    case ObjectResponse(fields) =>
      var m := Get(fields, "message");
      if Truthy(m) then m else Str(FallbackMessage)
  }

  /** `catch`. */
  function Catch(e: Exception): (r: Envelope)
    ensures !r.success
    ensures e.HttpException? ==> r.code == e.status
    ensures e.PlainError? ==> r.code == InternalServerError
    ensures e.PlainError? ==> r.message == Str(GenericMessage)
    ensures e.HttpException? && e.response.TextResponse? ==> r.message == Str(e.response.text)
    ensures e.HttpException? && e.response.ObjectResponse? && !Truthy(Get(e.response.fields, "message")) ==>
      r.message == Str(FallbackMessage)
    ensures e.HttpException? && e.response.ObjectResponse? && Truthy(Get(e.response.fields, "message")) ==>
      r.message == Get(e.response.fields, "message")
    ensures Truthy(e.name) ==> r.error == e.name
    ensures !Truthy(e.name) ==> r.error == Str(FallbackName)
    ensures Truthy(r.error)
  {
    Envelope(Status(e), false, MessageOf(ErrorBody(e)), if Truthy(e.name) then e.name else Str(FallbackName))
  }

  /** A service's `new Error(message)`: an error named `Error`. */
  function FromThrown(t: Thrown): Exception {
    PlainError(Str("Error"), Str(t.message))
  }

  /** The text of an error a service throws never reaches the client: every
      such error yields the same 500 envelope. */
  lemma ServiceErrorsMasked(t: Thrown)
    ensures Catch(FromThrown(t)) == Envelope(500, false, Str("Internal server error"), Str("Error"))
  {
  }
}
