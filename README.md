# Realtime chat server: session state and credential rules, in Dafny

This project models the core of a socket.io chat server, in two parts.

The first part is the realtime layer of `server/server.js`. It covers:

- the handshake middleware, which turns a bearer token into a connection identity;
- the per-connection handlers `connection`, `join-room`, `send-message`, `typing`, `private-message` and `disconnect`;
- the state these handlers share: the `onlineUsers` map, the global `typingUsers` set, and socket.io's room table.

The second part is the credential side of `server/routes/auth.js`:

- the `isValidUsername` and `isValidPassword` regular expressions;
- the early-return decision order of `POST /register` and `POST /login`.

Files:

- `common.dfy` holds `Option`, `Result` and the `{id, username}` claims a token carries.
- `regex.dfy` models the part of JavaScript `RegExp.prototype.test` the validators use. That part is an anchored pattern with lookaheads and quantified character classes, matched greedily with backtracking. The file also holds lemmas about what one quantified class and one `(?=.*[…])` lookahead accept.
- `credentials.dfy` holds the two patterns as written. It proves them equal to plain length and character-class rules. It also holds `String.prototype.trim`, with JavaScript's whitespace set.
- `auth_routes.dfy` holds `/register` and `/login` as functions from a request to a status and body. The database, bcrypt and `jwt.sign` enter as function parameters.
- `handshake.dfy` holds `String.prototype.split(".")`, proved to round-trip with `join(".")`, and the middleware `Authenticate`. The base64 and JSON decoding of the payload segment is a parameter: a partial function, `None` where `atob` or `JSON.parse` would throw.
- `chat.dfy` holds the `ChatServer` class. Its fields are `online` (`onlineUsers`), `order` (that map's iteration order), `typing`, `rooms` and `sockets`. It has one method per handler. Each method returns the emits it makes as `Delivery(recipients, event)` values.
  - socket.io's behaviour is written down as rules in the class: a socket is in the room named by its own id; `io.to(r)` reaches `Members(r)`; `socket.to(r)` reaches `Members(r) - {sender}`; `io.emit` reaches every connected socket; a disconnecting socket leaves every room.
  - `Valid()` is the invariant that every handler keeps:
    - the iteration order has no repeated key and lists exactly the keys of `onlineUsers`;
    - every `onlineUsers` entry names a live socket of that same user;
    - rooms hold only live sockets.
- `scenarios.dfy` holds short runs of several handlers. Their results follow from the handlers' contracts alone.

What the code does, as the model shows it, where a stricter design would differ:

- The handshake never checks the token's signature or expiry. `Handshake.SignatureNotChecked` proves that the identity depends only on the payload segment. A token with no signature segment is accepted as well.
- `disconnect` deletes the `onlineUsers` entry under the user's id even when a newer socket of the same user now owns it. `Scenarios.Reconnect` shows the effect: a connected user goes missing from the map.
- `typingUsers` is one global set, not one set per room, and `disconnect` leaves it untouched (`Scenarios.TypingAfterDisconnect`).
- Non-members may publish to a room.
- There is no leave-room operation. The client switches rooms by joining the new one, so it keeps receiving the old room's messages (`Scenarios.RoomSwitch`).
- A private message to one's own username goes to the socket that the user's `onlineUsers` entry names, through `socket.to`, which excludes the sender. Sent from that very socket (for instance the user's only connection), it reaches nobody (`Scenarios.MessageToSelf`). Sent from an older connection of the same user, it reaches the newer one.

## Model

| member | source | states |
|---|---|---|
| `Regex.MatchOneToEnd` | server/routes/auth.js:13 | `^[class]{min,max}$` accepts exactly the strings of admissible length whose characters are all in the class |
| `Regex.BacktrackOneToEnd` | server/routes/auth.js:13 | backtracking a single anchored item from k characters succeeds iff min <= length <= k |
| `Regex.MatchSingleOpen` | server/routes/auth.js:19 | a one-character item not followed by `$` matches iff the first character is in its class |
| `Regex.BacktrackSomewhere` | server/routes/auth.js:19 | backtracking `.*[class]` from k succeeds iff some position <= k holds a class character |
| `Regex.MatchSomewhere` | server/routes/auth.js:19 | on a string without line terminators, `(?=.*[class])` holds iff some character is in the class |
| `Regex.Run` | server/routes/auth.js:13 | the greedy run is a prefix all in the class, stopped by the first character outside it |
| `Regex.Greedy` | server/routes/auth.js:13 | a quantified class first takes the longest run it may, capped by its maximum |
| `Credentials.UsernameClassIs` | server/routes/auth.js:13 | `[a-zA-Z0-9@._-]` is exactly letters, digits, '@', '.', '_', '-' |
| `Credentials.PasswordClassIs` | server/routes/auth.js:19 | `[A-Za-z\d@$!%*?&]` is exactly letters, digits and `@$!%*?&` |
| `Credentials.LetterClassIs` | server/routes/auth.js:19 | `[A-Za-z]` is exactly the ASCII letters |
| `Credentials.DigitClassIs` | server/routes/auth.js:19 | `\d` is exactly the ASCII digits |
| `Credentials.UsernameRule` | server/routes/auth.js:12-15 | `isValidUsername(s)` iff 3 <= length <= 20 and every character is a letter, digit, '@', '.', '_' or '-' |
| `Credentials.PasswordBody` | server/routes/auth.js:19 | the body `[A-Za-z\d@$!%*?&]{6,}$` accepts exactly strings of 6 or more allowed characters |
| `Credentials.LetterAhead` | server/routes/auth.js:19 | on allowed characters, `(?=.*[A-Za-z])` holds iff some character is a letter |
| `Credentials.DigitAhead` | server/routes/auth.js:19 | on allowed characters, `(?=.*\d)` holds iff some character is a digit |
| `Credentials.PasswordRule` | server/routes/auth.js:18-21 | `isValidPassword(p)` iff length >= 6, every character is in `[A-Za-z0-9@$!%*?&]`, and p contains a letter and a digit |
| `Credentials.TrimStart` | server/routes/auth.js:33 | removes exactly the leading whitespace: a suffix, preceded only by whitespace, starting with non-whitespace |
| `Credentials.TrimEnd` | server/routes/auth.js:33 | removes exactly the trailing whitespace |
| `Credentials.Trim` | server/routes/auth.js:33 | `trim()` is a contiguous slice, with only whitespace cut at each end and no whitespace left at either end |
| `Credentials.TrimClean` | server/routes/auth.js:88 | a string with no whitespace at either end trims to itself |
| `Credentials.TrimFixpoint` | server/routes/auth.js:33 | trim leaves a string unchanged iff it has no whitespace at either end; trimming is idempotent |
| `Credentials.BlankUsernameInvalid` | server/routes/auth.js:33-37 | a whitespace-only string trims to "", which fails the username format rule |
| `AuthRoutes.RegisterBlankUsername` | server/routes/auth.js:28-40 | a non-empty whitespace-only username passes the presence check and is refused with 400 and the username format error, whatever the password and database |
| `AuthRoutes.Secret` | server/routes/auth.js:106 | the signing secret is exactly `JWT_SECRET` when that is set and non-empty, and the fallback string otherwise |
| `AuthRoutes.RegisterFailure` | server/routes/auth.js:68-76 | a thrown error with code 11000 gives 400, any other gives 500 |
| `AuthRoutes.Register` | server/routes/auth.js:24-77 | missing or empty credentials give 400 "required"; 201 iff the trimmed username and untrimmed password are valid, the lookup finds no user and the save succeeds; for a well-formed request an existing user gives 400 "Username already taken", and a lookup or save that throws gives 400 "Username already exists" on code 11000 and 500 otherwise |
| `AuthRoutes.RegisterFormatOrder` | server/routes/auth.js:36-47 | the trimmed username is checked first and the raw password second; the username error wins when both fail |
| `AuthRoutes.RegisterValidatesBeforeLookup` | server/routes/auth.js:36-54 | if the database's answer can change the response, both format rules held |
| `AuthRoutes.RegisterTaken` | server/routes/auth.js:51-54 | a well-formed request for an existing username gives 400 "Username already taken" |
| `AuthRoutes.Login` | server/routes/auth.js:80-120 | missing credentials give 400; a lookup that throws gives 500 "Server error. Please try again."; every 401 carries "Invalid username or password"; 200 iff the trimmed name is found and the raw password matches; the token signs exactly {id, username} of the stored user, and the response's username is the stored one |
| `AuthRoutes.LoginHidesWhichCredentialFailed` | server/routes/auth.js:92-101 | an unknown user and a wrong password give the identical 401 response |
| `Handshake.Split` | server/server.js:44 | `split(".")` yields at least one piece, none containing '.' |
| `Handshake.JoinSplit` | server/server.js:44 | joining the pieces with '.' gives back the token |
| `Handshake.SplitAfterPiece` | server/server.js:44 | a dot-free prefix becomes part of the first piece |
| `Handshake.SplitJoin` | server/server.js:44 | splitting dot-free pieces joined by '.' gives back the pieces |
| `Handshake.Authenticate` | server/server.js:40-50 | "Unauthorized" iff the token is missing or empty; a non-empty token whose second `.`-piece decodes is always accepted, and then the identity is exactly {id, username} of that payload |
| `Handshake.SignatureNotChecked` | server/server.js:43-49 | for `header.payload[.signature]` the outcome depends on the payload segment alone, with or without a signature |
| `Handshake.NoPayloadSegment` | server/server.js:44-48 | a non-empty token without '.' is refused with "Invalid token" |
| `Chat.Without` | server/server.js:92 | `Map.delete` on the iteration order: unchanged when k is absent, otherwise exactly the one occurrence of k cut out with the other keys in their order; keys stay distinct |
| `Chat.RemovedBehindHead` | server/server.js:92 | cutting k out of the tail of a sequence whose head is not k cuts it out of the whole sequence |
| `Chat.FirstNamed` | server/server.js:81 | `find` returns the earliest key whose entry carries the name, or nothing iff no entry carries it |
| `Chat.ChatServer.Recipient` | server/server.js:81 | a recipient exists iff some online user has that username, and it is one of them |
| `Chat.ChatServer.FindRecipient` | server/server.js:81 | the loop over `onlineUsers.values()` returns the entry of the first user with that name, or nothing |
| `Chat.ChatServer.constructor` | server/server.js:37-38 | the server starts with no users online, nobody typing, no rooms and no sockets |
| `Chat.ChatServer.Accept` | server/server.js:40-55 | a refused handshake changes nothing and is answered with "Unauthorized" or "Invalid token" as the middleware decided; an accepted one has exactly the new state of `Connect` for the decoded identity |
| `Chat.ChatServer.Connect` | server/server.js:52-55 | the entry for user.id becomes the new socket, replacing any old one without duplicating it; the socket joins its own room; `user-online` reaches every connected socket |
| `Chat.ChatServer.JoinRoom` | server/server.js:57-60 | adds the socket to the room, changes no other room, and notifies the room's other members, not the joiner |
| `Chat.ChatServer.SendMessage` | server/server.js:62-72 | one `receive-message` to exactly the room's members, the sender among them iff it is a member; sender is the connection's username, type defaults to "text"; state unchanged |
| `Chat.ChatServer.Typing` | server/server.js:74-78 | adds or removes the username from the global set; the event reaches the room's members except the sender; nothing else changes |
| `Chat.ChatServer.SendPrivate` | server/server.js:80-89 | nothing is emitted iff no online user has that name; otherwise one event reaches the recipient's socket (unless it is the sender); state unchanged |
| `Chat.ChatServer.Disconnect` | server/server.js:91-94 | the socket leaves every room and is gone; the entry under its user's id is deleted whichever socket it names; `user-offline` reaches the remaining sockets; typing set unchanged |
| `Scenarios.Reconnect` | server/server.js:52-94 | two connects under one id leave one entry for the newer socket; the older socket's disconnect then removes the user although the newer socket is live |
| `Scenarios.RoomSwitch` | server/server.js:57-72 | joining a second room does not leave the first; the first room's messages still reach the socket |
| `Scenarios.MessageToSelf` | server/server.js:80-89 | when the sender is the user's only connection, a private message to its own username reaches nobody |
| `Scenarios.TypingAfterDisconnect` | server/server.js:74-94 | a user who disconnects while typing stays in the typing set; the last event is `user-offline` |

## Left out

- File upload, static file serving, CORS, the database connection and `server.listen` (server/server.js:19-35, 97-98) are I/O set-up with no logic to model.
- MongoDB `findOne` and `save`, bcrypt and `jwt.sign` are foreign library calls. They are parameters (`find`, `persist`, `compare`, `sign`); the hash cost 12 is not modelled.
- The base64 and JSON decoding of the token payload is a parameter (`decode`). A payload without `id` or `username` strings (where the code would store `undefined`) is not modelled.
- Message ids (`Date.now() + Math.random()`) and timestamps (`new Date()`) are supplied by the caller. Their uniqueness is not modelled.
- Transport, delivery order and concurrency are out of scope. Each handler is one atomic step, and its emits are returned as data.
- Request fields of the routes are strings or absent; fields that are numbers, objects or `null` are not modelled.
- The handshake token is a string or absent. A truthy token that is not a string, on which `token.split` throws inside the `try` and the connection is refused with "Invalid token", is not modelled.
- Socket event fields: only `type` and `file` of `send-message` may be absent (`Option`); an absent `room`, `message`, `to` or `isTyping`, a `null` `type` (where the `"text"` default does not apply), a truthy non-boolean `isTyping`, and a missing event payload (on which the handler's destructuring throws) cannot be expressed.
- `socket.to(r)` is modelled as `Members(r)` minus the sender's socket. socket.io actually excludes every member of the room named by the sender's id, which differs only when another socket has joined a room named after that id; this case is not modelled.
- Characters are Unicode scalar values, while JavaScript strings are UTF-16 code units. Every character the validators accept is ASCII, so lengths agree on accepted strings.
- socket.io deletes a room once it is empty; the model keeps it as an empty set. `Members` returns the same either way.
- The React client (client/src) and the Mongoose message schema (server/models/Message.js) are presentation and declaration, not logic. The User model is not part of this model.
- AuthRoutes.Login: `bcrypt.compare` and `jwt.sign` are taken as total, so the 500 response when either of them throws is not modelled.
- AuthRoutes.Register: `bcrypt.hash` and `save` are modelled as one step that saves or throws; their separate failure points are not distinguished.
