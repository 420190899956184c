/** The shape of an Express response: a status code and a JSON body. */
module Http {

  /** A JSON response body. `NoBody` is what `res.json(x)` sends when `JSON.stringify(x)`
      is undefined, as it is for a function value. */
  datatype Payload<+T> =
    | Json(value: T)
    | Error(error: string)
    | Message(key: string, text: string)
    | NoBody

  datatype Reply<+T> = Reply(status: int, body: Payload<T>)

  /** A handler's effect on its store together with the reply it sends. */
  datatype Step<S, +T> = Step(store: S, reply: Reply<T>)
}
