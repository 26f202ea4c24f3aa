/** What an Express handler or middleware does with a request: send a JSON
    reply with a status, call `next()`, or call `next(error)`. Message texts
    are i18n keys, kept as opaque strings. */
module Http {
  import opened Values
  import opened AppErrors

  datatype Reply =
    | Respond(status: int, body: Record)
    | Next
    | NextWith(err: Thrown)

  /** `{ message: key }` */
  function Message(key: string): Record {
    map["message" := VStr(key)]
  }

  /** `{ status: 'fail', message: key }` */
  function Fail(key: string): Record {
    map["status" := VStr("fail"), "message" := VStr(key)]
  }

  /** `{ message: key, result: value }` */
  function WithResult(key: string, result: Value): Record {
    map["message" := VStr(key), "result" := result]
  }
}
