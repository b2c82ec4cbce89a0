/** The socket handshake middleware (server/server.js, `io.use`): it reads
    `socket.handshake.auth.token`, takes the second `.`-separated segment,
    base64- and JSON-decodes it, and adopts its `id` and `username` as the
    connection's identity.  The decoding is a parameter: a partial function
    from a segment to the `id` and `username` of the decoded payload,
    `None` where `atob` or `JSON.parse` throws. */
module Handshake {

  import opened Common

  datatype AuthError = Unauthorized | InvalidToken

  /** The message of the `Error` the middleware passes to `next`. */
  function ErrorMessage(e: AuthError): string {
    match e
    case Unauthorized => "Unauthorized"
    case InvalidToken => "Invalid token"
  }

  /** `s.split(".")`: the maximal dot-free pieces between the dots. */
  function Split(s: string): (parts: seq<string>)
    ensures |parts| >= 1
    ensures forall i :: 0 <= i < |parts| ==> '.' !in parts[i]
  {
    if s == [] then [[]]
    else
      var rest := Split(s[1..]);
      if s[0] == '.' then [[]] + rest else [[s[0]] + rest[0]] + rest[1..]
  }

  /** `parts.join(".")` */
  function Join(parts: seq<string>): string {
    if parts == [] then []
    else if |parts| == 1 then parts[0]
    else parts[0] + "." + Join(parts[1..])
  }

  /** Joining the pieces with dots gives back the string. */
  lemma {:induction false} JoinSplit(s: string)
    ensures Join(Split(s)) == s
  {
    if s != [] {
      var rest := Split(s[1..]);
      JoinSplit(s[1..]);
      if s[0] == '.' {
        assert s == "." + s[1..];
      } else if |rest| == 1 {
        assert s == [s[0]] + rest[0];
      } else {
        assert Join(rest) == rest[0] + "." + Join(rest[1..]);
        assert s == [s[0]] + rest[0] + "." + Join(rest[1..]);
      }
    }
  }

  lemma {:induction false} SplitAfterPiece(p: string, t: string)
    requires '.' !in p
    ensures Split(p + t) == [p + Split(t)[0]] + Split(t)[1..]
  {
    var st := Split(t);
    if p == [] {
      assert p + t == t && p + st[0] == st[0];
      assert [st[0]] + st[1..] == st;
    } else {
      assert (p + t)[0] == p[0] && (p + t)[1..] == p[1..] + t;
      SplitAfterPiece(p[1..], t);
      var rest := Split(p[1..] + t);
      assert rest[0] == p[1..] + st[0] && rest[1..] == st[1..];
      assert [p[0]] + (p[1..] + st[0]) == p + st[0];
    }
  }

  /** Splitting dot-free pieces joined with dots gives back the pieces. */
  lemma {:induction false} SplitJoin(parts: seq<string>)
    requires |parts| >= 1
    requires forall i :: 0 <= i < |parts| ==> '.' !in parts[i]
    ensures Split(Join(parts)) == parts
  {
    if |parts| == 1 {
      SplitAfterPiece(parts[0], []);
      assert parts[0] + [] == parts[0];
    } else {
      var tail := Join(parts[1..]);
      SplitJoin(parts[1..]);
      SplitAfterPiece(parts[0], "." + tail);
      assert ("." + tail)[0] == '.' && ("." + tail)[1..] == tail;
      assert Split("." + tail) == [[]] + parts[1..];
      assert Join(parts) == parts[0] + ("." + tail);
      assert parts[0] + [] == parts[0];
      assert parts == [parts[0]] + parts[1..];
    }
  }

  /** The whole middleware: the identity it attaches to the socket, or the
      error the connection is refused with. */
  function Authenticate(token: Option<string>, decode: string -> Option<Claims>): (r: Result<Claims, AuthError>)
    ensures r == Failure(Unauthorized) <==> token.None? || token.value == ""
    ensures r.Success? ==>
      var parts := Split(token.value);
      |parts| >= 2 && decode(parts[1]).Some?
      && r.value == Claims(decode(parts[1]).value.id, decode(parts[1]).value.username)
    ensures token.Some? && token.value != "" && |Split(token.value)| >= 2 && decode(Split(token.value)[1]).Some?
      ==> r.Success?
  {
    if token.None? || token.value == "" then Failure(Unauthorized)
    else
      var parts := Split(token.value);
      // With fewer than two pieces `parts[1]` is undefined, and
      // `atob(undefined)` throws: "undefined" is not valid base64.
      if |parts| < 2 then Failure(InvalidToken)
      else
        match decode(parts[1])
        case None => Failure(InvalidToken)
        case Some(p) => Success(Claims(p.id, p.username))
  }

  /** The outcome for a token `header.payload.signature` depends on the
      payload segment alone: the signature is never checked, and a token
      without one is accepted the same way.  (No clock enters either: an
      expired token is accepted too.) */
  lemma SignatureNotChecked(header: string, payload: string, signature: string, decode: string -> Option<Claims>)
    requires '.' !in header && '.' !in payload && '.' !in signature
    ensures var outcome := match decode(payload)
                          case None => Failure(InvalidToken)
                          case Some(p) => Success(Claims(p.id, p.username));
      && Authenticate(Some(Join([header, payload, signature])), decode) == outcome
      && Authenticate(Some(Join([header, payload])), decode) == outcome
  {
    SplitJoin([header, payload, signature]);
    SplitJoin([header, payload]);
  }

  /** A non-empty token without a dot is refused as invalid, whatever the decoder. */
  lemma NoPayloadSegment(token: string, decode: string -> Option<Claims>)
    requires token != "" && '.' !in token
    ensures Authenticate(Some(token), decode) == Failure(InvalidToken)
  {
    SplitJoin([token]);
  }
}
