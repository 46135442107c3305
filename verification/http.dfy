/**
 * What a handler sends back: a status code and the message of the JSON body.
 * Handlers that change stored state return the new state alongside.
 */
module Http {
  datatype Reply = Reply(status: nat, message: string)

  datatype Outcome<S> = Outcome(reply: Reply, state: S)

  predicate Success(r: Reply) {
    200 <= r.status < 300
  }
}
