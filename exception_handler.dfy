/**
 * The gateway's `exceptionHandler`: every gateway `catch` block hands the caught
 * value to it, and it always throws, turning a remote rejection back into an
 * HttpException and rethrowing anything else unchanged.
 */
module ExceptionHandling {
  import opened Exceptions
  import opened ServiceExceptionFilter

  /** A value a gateway `catch` block can receive. */
  datatype Fault =
    /** a remote rejection: its (truthy) `error` field holds `{ statusCode, message }` */
    | Rejected(statusCode: int, message: string)
    /** an HttpException thrown in the gateway itself; it has no `error` field */
    | Raised(exception: HttpException)
    /** any other thrown value, such as a TypeError */
    | Crash(reason: string)

  /** What `lastValueFrom(client.send(...))` rejects with when the remote side rejected. */
  function Received<T>(reply: Rpc<T>): (fault: Fault)
    requires reply.RpcErr?
    ensures fault.Rejected? && fault.statusCode == reply.statusCode && fault.message == reply.message
  {
    Rejected(reply.statusCode, reply.message)
  }

  /** A gateway handler either returns a value or throws. */
  datatype Reply<T> = Returned(value: T) | Thrown(fault: Fault)

  /**
   * `exceptionHandler(error)`. It never returns normally, so its result is the
   * value it throws.
   */
  function HandleException(error: Fault): (thrown: Fault)
    ensures !thrown.Rejected?
    ensures error.Rejected? ==> thrown == Raised(HttpException(Text(error.message), error.statusCode))
    ensures !error.Rejected? ==> thrown == error
  {
    match error
    case Rejected(statusCode, message) => Raised(HttpException(Text(message), statusCode))
    case _ => error
  }

  /** The handler's output carries no `error` field, so handling it again changes nothing. */
  lemma HandleExceptionIdempotent(error: Fault)
    ensures HandleException(HandleException(error)) == HandleException(error)
  {
  }

  /**
   * Round trip across the boundary: an exception a service throws reaches the
   * gateway as an HttpException with the same status and the same message.
   */
  lemma FilterThenHandlerPreservesStatusAndMessage<T>(exception: HttpException)
    ensures var thrown := HandleException(Received(Catch<T>(exception)));
      && thrown.Raised?
      && thrown.exception.status == exception.status
      && ResponseMessage(thrown.exception.response) == ResponseMessage(exception.response)
  {
  }

  /** An exception built from a plain string message arrives exactly as it was thrown. */
  lemma FilterThenHandlerRestoresTextException<T>(exception: HttpException)
    requires exception.response.Text?
    ensures HandleException(Received(Catch<T>(exception))) == Raised(exception)
  {
  }

  /**
   * A translated rejection thrown again inside another service passes that
   * service's filter unchanged: rejections are stable across any number of hops.
   */
  lemma RethrownRejectionIsUnchanged<T>(statusCode: int, message: string)
    ensures Catch<T>(HandleException(Rejected(statusCode, message)).exception) == RpcErr(statusCode, message)
  {
  }
}
