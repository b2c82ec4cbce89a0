/** Small shared vocabulary: optional values, results with an error, and the
    identity claims that a login token carries. */
module Common {

  datatype Option<+T> = None | Some(value: T)

  datatype Result<+T, +E> = Success(value: T) | Failure(error: E)

  /** The `{id, username}` object that `/login` signs into a token and that
      the socket handshake reads back out of one. */
  datatype Claims = Claims(id: string, username: string)
}
