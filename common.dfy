/** Values shared by every part of the service: identifiers, optional values,
    the HTTP error kinds the services throw, and the result of an operation
    that either yields a value or throws one of those errors. */
module Common {

  /** A primary key. The database generates these as UUIDs: never the empty
      string, never reused, and written in lower case (`Store.Database.Valid`
      keeps all three). */
  type Id = string

  /** `c` in lower case, for the ASCII letters. */
  function Lower(c: char): char
  {
    if 'A' <= c <= 'Z' then (c as int + 32) as char else c
  }

  /** No ASCII upper-case letter occurs in `id`: the form in which the
      database stores and returns a `uuid`. */
  predicate IsCanonical(id: Id)
  {
    forall i | 0 <= i < |id| :: !('A' <= id[i] <= 'Z')
  }

  /** The `uuid` the database reads from the text `id`: it accepts either
      letter case and always keeps the lower-case spelling. Lookups by id go
      through this; a comparison of ids in the service's own code does not. */
  function Canon(id: Id): (r: Id)
    ensures |r| == |id| && IsCanonical(r)
    ensures IsCanonical(id) ==> r == id
    ensures r == "" <==> id == ""
  {
    seq(|id|, i requires 0 <= i < |id| => Lower(id[i]))
  }

  /** Reading an id a second time changes nothing more. */
  lemma CanonIdempotent(id: Id)
    ensures Canon(Canon(id)) == Canon(id)
  {
  }

  /** Two spellings of an id that differ only in letter case read as the
      same `uuid`. */
  lemma {:induction false} CanonIgnoresCase(a: Id, b: Id)
    requires |a| == |b|
    requires forall i | 0 <= i < |a| :: Lower(a[i]) == Lower(b[i])
    ensures Canon(a) == Canon(b)
  {
    forall i | 0 <= i < |a| ensures Canon(a)[i] == Canon(b)[i] {
    }
  }

  datatype Option<+T> = None | Some(value: T) {
    /** `x ?? d` in the source. */
    function GetOr(default: T): T {
      match this
      case Some(v) => v
      case None => default
    }
  }

  /** The NotFound message of both services when an id names no user. */
  const UserNotFound := "User not found"

  /** The exceptions the services throw, each with the message it carries.
      NotFound is a 404, BadRequest a 400, Internal a 500. */
  datatype Error =
    | NotFound(message: string)
    | BadRequest(message: string)
    | Internal(message: string)

  /** Either the awaited value or the exception the call throws. */
  datatype Result<+T> = Ok(value: T) | Err(error: Error)
}
