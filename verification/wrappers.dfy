/** The optional-value and result-envelope types shared by every module.

    `Option` stands for a nullable column or an optional argument
    (`null`/`undefined` in the source); `Result` is the server actions'
    `{ success: true, data }` / `{ success: false, error }` envelope. */
module Wrappers {

  datatype Option<+T> = None | Some(value: T) {
    function GetOr(default: T): T {
      match this
      case Some(v) => v
      case None => default
    }
  }

  datatype Result<+T> = Ok(value: T) | Err(message: string)
}
