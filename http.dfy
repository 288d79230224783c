/**
 * What an ASP.NET Core action returns, and the .NET exceptions the services throw,
 * reduced to the parts the controllers look at.
 */
module Http {

  /** `Ok(...)`, `BadRequest(...)`, `Unauthorized(...)` and `NotFound(...)` of a controller. */
  datatype ActionResult<+T> =
    | Ok(body: T)
    | BadRequest(message: string)
    | Unauthorized(message: string)
    | NotFound(message: string)

  datatype Exception =
    | ArgumentNull(paramName: string, text: string)
    | Argument(paramName: string, text: string)
    | ArgumentOutOfRange(paramName: string, text: string)
    /** The wrapper the services throw around any failure of the database driver. */
    | InvalidOperation(text: string)
  {
    /** `Exception.Message`: the argument exceptions append the parameter name. */
    function Message(): string {
      match this
      case ArgumentNull(p, t) => t + " (Parameter '" + p + "')"
      case Argument(p, t) => t + " (Parameter '" + p + "')"
      case ArgumentOutOfRange(p, t) => t + " (Parameter '" + p + "')"
      case InvalidOperation(t) => t
    }
  }
}
