/** The `HTTPException`s the service raises, and the result type of every operation. */
module Http {

  /** One constructor per distinct `HTTPException` raised by the modelled code. */
  datatype HttpError =
    | EmailAlreadyRegistered
    | EmailDomainNotAllowed
    | SelfRegistrationForbidden
    | IncorrectCredentials
    | AccountInactive
    | CouldNotValidateCredentials
    | UserNotFound
    | PermissionDenied
    | OnlyStudentsMaySignUp
    | ActivityNotFound
    | AlreadySignedUp
    | ActivityFull
    | NotSignedUp
  {
    /** The HTTP status code the exception carries. */
    function StatusCode(): int {
      match this
      case EmailAlreadyRegistered => 400
      case EmailDomainNotAllowed => 400
      case SelfRegistrationForbidden => 403
      case IncorrectCredentials => 401
      case AccountInactive => 403
      case CouldNotValidateCredentials => 401
      case UserNotFound => 401
      case PermissionDenied => 403
      case OnlyStudentsMaySignUp => 403
      case ActivityNotFound => 404
      case AlreadySignedUp => 400
      case ActivityFull => 400
      case NotSignedUp => 400
    }

    /** The `detail` message the client sees. */
    function Detail(): string {
      match this
      case EmailAlreadyRegistered => "Email already registered"
      case EmailDomainNotAllowed => "Only @mergington.edu email addresses are allowed"
      case SelfRegistrationForbidden => "Cannot self-register as teacher or admin. Contact an administrator."
      case IncorrectCredentials => "Incorrect email or password"
      case AccountInactive => "Account is inactive"
      case CouldNotValidateCredentials => "Could not validate credentials"
      case UserNotFound => "User not found"
      case PermissionDenied => "You don't have permission to perform this action"
      case OnlyStudentsMaySignUp => "Only students can sign up for activities"
      case ActivityNotFound => "Activity not found"
      case AlreadySignedUp => "You are already signed up for this activity"
      case ActivityFull => "Activity is full"
      case NotSignedUp => "You are not signed up for this activity"
    }
  }

  /** Either the operation's value or the exception it raised. A failed
      operation carries no new state, so the store it was given stays as it was. */
  datatype Result<+T> = Ok(value: T) | Err(error: HttpError) {

    predicate IsFailure() {
      Err?
    }

    function PropagateFailure<U>(): Result<U>
      requires Err?
    {
      Err(error)
    }

    function Extract(): T
      requires Ok?
    {
      value
    }
  }
}
