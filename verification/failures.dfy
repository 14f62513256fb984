/**
 * The exceptions the HTTP component raises or lets through. A failure is known
 * by its class name, by which of the component's two exception classes it
 * descends from (if any), and by the code and message it was built with.
 */
module Failures {
  import opened Wrappers

  /** Which of the component's exception classes a thrown object is an instance of. */
  datatype Family = BadRequest | NotFound | Unrelated

  datatype Failure = Failure(className: string, family: Family, code: int, message: string)

  /** What an operation that may throw produces. */
  type Outcome<T> = Result<T, Failure>

  const BadRequestClass := "Cook\\Component\\Http\\Exception\\BadRequestException"
  const NotFoundClass := "Cook\\Component\\Http\\Exception\\NotFoundException"
  const InvalidArgumentClass := "InvalidArgumentException"
  const RuntimeClass := "RuntimeException"
  const TypeErrorClass := "TypeError"

  /** `new BadRequestException($message)`: the code defaults to 0. */
  function BadRequestException(message: string): Failure {
    Failure(BadRequestClass, BadRequest, 0, message)
  }

  function NotFoundException(message: string): Failure {
    Failure(NotFoundClass, NotFound, 0, message)
  }

  function InvalidArgumentException(message: string): Failure {
    Failure(InvalidArgumentClass, Unrelated, 0, message)
  }

  function RuntimeException(message: string): Failure {
    Failure(RuntimeClass, Unrelated, 0, message)
  }

  /**
   * The engine's `TypeError` under `declare(strict_types=1)`: a value of the
   * wrong type reached a typed parameter or return. `what` names the place.
   */
  function TypeError(what: string): Failure {
    Failure(TypeErrorClass, Unrelated, 0, what)
  }
}
