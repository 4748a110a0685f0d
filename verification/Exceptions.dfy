/** The kinds of exception that can leave a route and reach the server's handlers. */
module Exceptions {

  datatype Exception =
    | IllegalArgument(message: string)   // IllegalArgumentException (or a subclass)
    | Json(message: string)              // org.json's JSONException
    | EmptyResult                        // Dalesbred's EmptyResultException
    | Unhandled(message: string)         // anything without a registered handler
}
