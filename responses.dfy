/** How a validator ends: it either returns a value, or throws the error
    envelope built by `errorResponse(status, message)`. Only the two arguments
    of that call are visible, so the thrown value is the pair itself. */
module Responses {

  datatype Outcome<+T> =
    | Returned(value: T)
    | Thrown(status: int, message: string)
}
