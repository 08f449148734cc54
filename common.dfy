/** Values shared by the server-side modules: optional values, the user
    identity, the moderation status of posts and problems, and the shape of
    an HTTP reply as the endpoints return it. */
module Common {

  /** A value that may be missing (Python's None, a key absent from a dict). */
  datatype Option<+T> = None | Some(value: T) {
    /** The value, or `default` when it is missing (`dict.get(key, default)`). */
    function GetOr(default: T): T {
      match this
      case Some(v) => v
      case None => default
    }
  }

  /** Users are identified by their primary key. */
  type UserId = nat

  /** The `status` column of a post or a problem ('PENDING', 'ACCEPTED', 'REJECTED'). */
  datatype Status = Pending | Accepted | Rejected

  /** What an endpoint answers: a success with its HTTP code and body, a
      404 from `get_object_or_404`, or a 400 carrying the endpoint's error text. */
  datatype Reply<+T> = Ok(code: int, body: T) | NotFound | BadRequest(error: string)

  /** Appending in two steps is appending the two parts at once. */
  lemma AppendAssoc<T>(a: seq<T>, b: seq<T>, c: seq<T>)
    ensures a + b + c == a + (b + c)
  {
  }
}
