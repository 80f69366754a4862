/**
 * NestJS HTTP exceptions as the services throw them, and the outcome of a
 * service operation: a value, or a thrown HttpException.
 */
module Exceptions {
  import opened Wrappers

  const UNAUTHORIZED: int := 401
  const NOT_FOUND: int := 404
  const CONFLICT: int := 409

  /**
   * What `exception.getResponse()` yields. `new HttpException(msg, status)` keeps
   * the string itself; the named subclasses (`UnauthorizedException(msg)` and the
   * like) build an object whose `message` field holds `msg`.
   */
  datatype ExceptionResponse = Text(text: string) | Body(message: Option<string>)

  datatype HttpException = HttpException(response: ExceptionResponse, status: int)

  /** `new UnauthorizedException(msg)` */
  function Unauthorized(msg: string): HttpException
  {
    HttpException(Body(Some(msg)), UNAUTHORIZED)
  }

  /** `new NotFoundException(msg)` */
  function NotFound(msg: string): HttpException
  {
    HttpException(Body(Some(msg)), NOT_FOUND)
  }

  /** `new ConflictException(msg)` */
  function Conflict(msg: string): HttpException
  {
    HttpException(Body(Some(msg)), CONFLICT)
  }

  /** The result of a service operation: it returns a value or throws an HttpException. */
  datatype Outcome<T> = Done(value: T) | Threw(exception: HttpException)
}
