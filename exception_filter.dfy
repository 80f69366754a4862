/**
 * The microservices' global `ServiceExceptionFilter` and what a caller receives
 * for one message: the handler's value, or the `{ statusCode, message }`
 * rejection the filter builds from a thrown HttpException.
 */
module ServiceExceptionFilter {
  import opened Wrappers
  import opened Exceptions

  /** One reply across the RPC boundary. */
  datatype Rpc<T> = Ok(payload: T) | RpcErr(statusCode: int, message: string)

  /**
   * The message the filter extracts: a string response is the message itself; an
   * object response gives its `message` field, or "" when it is absent. Since
   * the only falsy string is "", `message || ""` is the field itself when present.
   */
  function ResponseMessage(response: ExceptionResponse): string
  {
    match response
    case Text(text) => text
    case Body(None) => ""
    case Body(Some(message)) => message
  }

  /** `ServiceExceptionFilter.catch`: always a rejection, carrying the exception's status. */
  function Catch<T>(exception: HttpException): (rejection: Rpc<T>)
    ensures rejection.RpcErr?
    ensures rejection.statusCode == exception.status
    ensures exception.response.Text? ==> rejection.message == exception.response.text
    ensures exception.response == Body(None) ==> rejection.message == ""
    ensures exception.response.Body? && exception.response.message.Some? ==>
              rejection.message == exception.response.message.value
  {
    RpcErr(exception.status, ResponseMessage(exception.response))
  }

  /**
   * A message handler's result as its caller receives it: a returned value is sent
   * as is, and a thrown exception passes through the global filter.
   */
  function Respond<T>(outcome: Outcome<T>): (reply: Rpc<T>)
    ensures outcome.Done? <==> reply.Ok?
    ensures outcome.Done? ==> reply.payload == outcome.value
    ensures outcome.Threw? ==> reply == Catch(outcome.exception)
  {
    match outcome
    case Done(value) => Ok(value)
    case Threw(exception) => Catch(exception)
  }
}
