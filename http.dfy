/** Responses and the per-client session record that the routes read and write. */
module Http {
  import opened Wrappers
  import opened Js

  /** A response: the status code and the JSON body. */
  datatype Response = Response(status: int, body: Value)

  /** `res.status(status).json({ error: message })`. */
  function ErrorResponse(status: int, message: string): (r: Response)
    ensures r.status == status && r.body.Object? && r.body.fields.Keys == {"error"}
    ensures r.body.fields["error"] == Str(message)
  {
    Response(status, Object(map["error" := Str(message)]))
  }

  /**
   * The server-side session of one client (`req.session`). The routes store only the
   * user's id and username in it; `None` is a field that was never set.
   */
  class Session {
    var userId: Option<string>
    var username: Option<string>

    /** A fresh session, as the session middleware creates for a new client. */
    constructor ()
      ensures userId == None && username == None
    {
      userId := None;
      username := None;
    }
  }

  /** `req.session.userId` is truthy: set and not the empty string. */
  predicate SignedIn(userId: Option<string>) {
    userId.Some? && userId.value != ""
  }
}
