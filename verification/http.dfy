/**
 The request/response vocabulary shared by both route handlers: the JSON
 response a handler returns, the session the auth service reports, and the
 catch-all that turns a thrown value into a 500.
 */
module Http {
  import opened Js

  /** `NextResponse.json(...)`: either the success body with the default status
      200, or `{ error }` with an explicit error status. */
  datatype Response<+B> = Json(body: B) | ErrorJson(status: nat, error: string)

  /** The HTTP status sent back: `NextResponse.json` answers 200 unless it is
      given an explicit status. */
  function Status<B>(r: Response<B>): (code: nat)
    ensures r.Json? ==> code == 200
    ensures r.ErrorJson? ==> code == r.status
  {
    if r.Json? then 200 else r.status
  }

  /** What `supabase.auth.getUser()` resolved to: the user's id when a user came
      back, and whether an `error` was reported alongside. */
  datatype Session = Session(user: Option<string>, failed: bool)

  /** The handlers go on only when there is no error AND there is a user
      (`authError || !user` rejects). */
  predicate SignedIn(session: Session)
    ensures SignedIn(session) ==> session.user.Some?
    ensures session.failed ==> !SignedIn(session)
    ensures session.user == None ==> !SignedIn(session)
    ensures !session.failed && session.user.Some? ==> SignedIn(session)
  {
    !session.failed && session.user.Some?
  }

  const UnauthorizedMessage: string := "Unauthorized. Please log in."

  /** The 401 both handlers return for a caller without a session. */
  function Unauthorized<B>(): (r: Response<B>)
    ensures Status(r) == 401 && r.error == UnauthorizedMessage
  {
    ErrorJson(401, UnauthorizedMessage)
  }

  /** The handlers' outer `catch`: status 500 with the thrown error's message,
      or the handler's fallback text when the thrown value is not an `Error`. */
  function Caught<B>(e: Thrown, fallback: string): (r: Response<B>)
    ensures Status(r) == 500
    ensures e.ErrorInstance? ==> r.error == e.message
    ensures e.OtherValue? ==> r.error == fallback
  {
    ErrorJson(500, MessageOf(e, fallback))
  }
}
