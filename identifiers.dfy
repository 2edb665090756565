/** Identifiers shared by the server and the browser models. */
module Identifiers {

  /** A user's id as the token carries it and as messages name their sender and recipient. */
  type UserId = string
}
