# AMBRodeo backend: authentication, token resolution and like counters

A Dafny model of the core of the AMBRodeo social-feed backend. The backend comes
in two variants that share one MongoDB database:

- a JSON-RPC endpoint (`src/handlers.ts`), and
- a REST server (`src/server.js`).

Both issue challenge secrets that callers sign with their wallet key. Both
resolve unknown tokens through a subgraph index. Both keep a denormalised `like`
counter on every token document, in step with the rows of the `like`
collection.

Files:

- `js.dfy` (module `Js`): JavaScript facts the handlers rely on: `undefined`,
  truthiness, `x || default`, `toLowerCase`, `Map.get`. It also holds the
  foreign capabilities as oracle values: ethers' `isAddress` and
  `verifyMessage` (datatype `Ethers`), and the subgraph POST (`Subgraph`).
- `counters.dfy` (module `Counters`): the like/unlike step as a function on
  values (`Toggle`), the invariant it serves (`InSync`: every row names a stored
  token and every counter equals its row count), and lemmas about both.
- `mongo.dfy` (module `Mongo`): class `Db` holds the collections as fields
  (`likes`, `tokens`, `messages`, `massages`, `users`). Its methods are the
  driver calls. Each write reports `upsertedCount` or `deletedCount` from
  membership, as the driver does.
- `handlers.dfy` (module `Handlers`): the JSON-RPC variant. It holds the
  signature check, the argument normalisation, the dispatch and its error
  mapping as functions. Class `RpcService` holds the process-wide `mapSecret`
  and the handlers as methods.
- `server.dfy` (module `Server`): the REST variant. It holds the `preHandler`
  hook as a function. Class `RestService` holds its own `mapSecret` and the
  route handlers.

Each handler runs as one atomic step. Its `ensures` give the whole new state
and the reply in terms of the old state and the oracles. `HandleRpcRequest`
(JSON-RPC) and `CheckTokenExist`, `AddMessage` (REST) keep `CountersInSync`.

### Source defects the model keeps

The model reproduces the code as written, apart from the points under "## Left out". Each defect below is flagged in a
comment at the member that models it:

- `src/handlers.ts:138`, `:165`, `:204` and `:294` throw "Invalid signature"
  when `validateSignature` returns true. The guard is inverted
  (`Handlers.SignatureGate`, `Handlers.InvertedGate`).
- `src/handlers.ts:132` stores the secret under the literal key `"address"`
  (`Handlers.RpcService.GetSecret`). So the entry that `validateSignature` reads
  for a caller is never written by `getSecret`.
- `src/handlers.ts:78` compares the lower-cased address with the address
  ethers recovers, which ethers reports in its checksummed, mixed-case form.
  With the inverted guard, a genuine signature would be let through exactly
  when the checksummed form has an upper-case letter
  (`Handlers.InvertedGate`). In fact no signed request gets that far: since
  `getSecret` writes only the key `"address"`, `validateSignature` hands ethers
  an undefined secret for every real address, and ethers throws on it
  (`Handlers.NoCallerPassesGate`). So `addUser`, `addMessage`, `addLike` and
  `getUserLikes` always answer `internalError` and never change the database
  (`Handlers.RpcService.HandleRpcRequest`).
- `src/server.js:268-272` discards the result of `concat`. The secret is the
  constant `"AMBRodeo authorization secret: "` for every address
  (`Server.RestService.GetSecret`, `Server.ReissueKeepsSignatureValid`).
- `src/server.js:46` looks the secret up under the raw header address.
  `src/server.js:273` stores it under the lower-cased address. A header address
  with an upper-case letter is always refused (`Server.MixedCaseAddressRefused`).
- `src/server.js:117` and `:166` call `checkTokenExist` without `await`. The
  negated Promise is always false, so no request is answered 404. The message or
  like goes ahead even for a token nobody could resolve
  (`Server.RestService.AddMessage`, `Server.RestService.AddOrDeleteLike`).
  A like for such a token leaves a row that no counter accounts for
  (`Counters.LikeOfUnknownTokenBreaksSync`).
- `src/server.js:119` inserts into `massage`, while `src/server.js:216` reads
  `message` (`Mongo.Db.InsertMassage`). The `message` collection is never
  written by the REST variant.
- `src/server.js:183-185` deletes from `token` with filter
  `{address, tokenAddress}`. Token documents have no `address`, so an unlike
  removes nothing (`Mongo.Db.DeleteTokenByAddress`).

### Other behaviour the model keeps

- `src/handlers.ts` raises `internalError` on every subgraph failure, and on a
  response with a null token (reading `.id` throws). Only a non-matching id
  answers false. `src/server.js` answers false on a failure and `undefined` on
  a non-matching id.
- Both variants pass the whole user document on a save, and the model treats
  a save as a whole-document replacement. A profile saved with only
  `userName` loses its `image`.

## Model

| member | source | states |
|---|---|---|
| `Counters.Bump` | src/handlers.ts:222-224 | `$inc` without upsert: only token `t`'s counter moves, by `delta`; the key set is unchanged, so a token with no document is not created |
| `Counters.Toggle` | src/handlers.ts:216-239 | after a like the row set holds `(address, tokenAddress)`, after an unlike it does not; the counter moves by +1 only when the row was new, by -1 only when a row was removed, otherwise not at all; no other row or counter changes |
| `Counters.ToggleKeepsSync` | src/handlers.ts:216-239 | from a state where every counter equals its token's row count, a like/unlike on a stored token leads to such a state again |
| `Counters.ToggleIdempotent` | src/handlers.ts:226-238 | repeating the same like (or unlike) request leaves both rows and counters as the first request left them |
| `Counters.LikeThenUnlike` | src/handlers.ts:217-238 | like followed by unlike, starting without the row, restores the rows and the counters exactly (counter 0 to 1 and back to 0) |
| `Counters.FreshTokenKeepsSync` | src/handlers.ts:48-58 | storing `{like: 0}` for a token that had no document keeps every counter equal to its row count |
| `Counters.LikeOfUnknownTokenBreaksSync` | src/server.js:166-180 | a like recorded for a token with no document leaves the counters out of step with the rows |
| `Mongo.Db.FindToken` | src/handlers.ts:175 | `findOne` on `token` answers whether the token has a document |
| `Mongo.Db.UpsertToken` | src/handlers.ts:49-57 | the replacement upsert sets the token's counter to 0, whether or not it existed |
| `Mongo.Db.UpsertLike` | src/handlers.ts:227-233 | the like row is present afterwards; `upsertedCount` is 1 exactly when it was absent before |
| `Mongo.Db.DeleteLike` | src/handlers.ts:218-220 | the like row is absent afterwards; `deletedCount` is 1 exactly when it was present before |
| `Mongo.Db.DeleteTokenByAddress` | src/server.js:183-185 | the filter `{address, tokenAddress}` on `token` matches no document: `deletedCount` is 0 and nothing changes |
| `Mongo.Db.IncrementLike` | src/handlers.ts:222-224 | the token table becomes `Bump` of the old one |
| `Mongo.Db.InsertMessage` | src/handlers.ts:181-186 | exactly one document is appended to `message` |
| `Mongo.Db.InsertMassage` | src/server.js:119-124 | exactly one document is appended to `massage`; `message` is untouched |
| `Mongo.Db.UpsertUser` | src/handlers.ts:141-147 | the user document under the key is replaced by the new one, created if absent |
| `Handlers.Route` | src/handlers.ts:91-112 | a method name is routed exactly when it names one of the eight handlers, and then to the handler of that name |
| `Handlers.RouteMethodName` | src/handlers.ts:92-107 | every handler's name routes back to that handler |
| `Handlers.Respond` | src/handlers.ts:114-120 | a handler result is answered with the request id; every handler exception becomes `internalError("Internal error")`, so the `invalidParams` code never reaches the client |
| `Handlers.ValidateSignature` | src/handlers.ts:67-79 | `invalidParams("Invalid address")` exactly for an empty or non-address lower-cased address; a thrown ethers error exactly when recovery fails; true exactly when the secret stored for the lower-cased address, with the signature defaulting to "0x", recovers to that lower-cased address; false exactly when it recovers to some other address |
| `Handlers.SignatureGate` | src/handlers.ts:138-139 | the inverted guard: a request proceeds exactly when `validateSignature` answers false; a true answer is refused with "Invalid signature"; its exceptions pass through |
| `Handlers.InvertedGate` | src/handlers.ts:204-205 | for a valid address and a readable signature, the gate admits the caller exactly when the signature recovers to a different address |
| `Handlers.TokenTarget` | src/handlers.ts:200-208 | addLike/addMessage checks in source order: undefined address is a TypeError, then the signature gate's verdict, then `invalidParams("Invalid address")` for a bad token address; on success both addresses come back lower-cased, the token address defaulting to "0x" |
| `Handlers.MissingTokenRejected` | src/handlers.ts:162-169 | when "0x" is not an address, a request with an undefined or empty token address is refused |
| `Handlers.MessageText` | src/handlers.ts:171-172 | an undefined or empty message is refused with "Message is empty" after the token checks pass; otherwise the target and the text |
| `Handlers.MessagesFor` | src/handlers.ts:275-277 | the filter `{tokenAddress}`: exactly the stored messages of that token, each as many times as it is stored, and no message of another token |
| `Handlers.NoCallerPassesGate` | src/handlers.ts:67-79 | while the secret map holds no key but `"address"` (which is not an address) and ethers throws on an undefined message, the signature guard refuses every caller, whatever it signs |
| `Handlers.RpcService.constructor` | src/handlers.ts:31 | the secret map starts empty |
| `Handlers.RpcService.GetSecret` | src/handlers.ts:123-134 | an undefined, empty or non-address is refused with no change; otherwise the reply is the address as given with the new secret, and the only map entry written is the one under the key "address" |
| `Handlers.RpcService.AddToken` | src/handlers.ts:33-65 | a matching subgraph id stores `{like: 0}` and answers true; another id answers false with no change; a failed call throws `internalError` with no change; keeps the counters in sync when the token was absent |
| `Handlers.RpcService.AddUser` | src/handlers.ts:136-153 | undefined address is a TypeError; past the inverted gate the user document under the lower-cased address is replaced by `{userName, image}`; otherwise no change |
| `Handlers.RpcService.AddMessage` | src/handlers.ts:155-192 | a refused argument changes nothing; a stored or confirmable token gets exactly one appended message with lower-cased addresses; an unconfirmable token (failure or "Token not found") raises `internalError` with no change; counters stay in sync |
| `Handlers.RpcService.AddLike` | src/handlers.ts:194-245 | a refused argument changes nothing; a subgraph failure raises `internalError` and a non-matching id `invalidParams("Token not found")`, both with no change; otherwise exactly one `Toggle` step on the resolved table with `like` read for truthiness; counters stay in sync |
| `Handlers.RpcService.GetToken` | src/handlers.ts:247-263 | the token address defaults to "0x" and is lower-cased; a non-address is refused; otherwise the stored counter or null |
| `Handlers.RpcService.GetMessages` | src/handlers.ts:265-287 | `skip` and `limit` default to 0; a non-address token is refused; otherwise exactly the messages of that token, each as many times as it is stored |
| `Handlers.RpcService.GetUserLikes` | src/handlers.ts:289-310 | `skip` and `limit` default to 0; past the inverted gate, exactly the like rows of the lower-cased address |
| `Handlers.RpcService.GetUser` | src/handlers.ts:312-323 | the profile under the lower-cased address, or null; undefined address is a TypeError |
| `Handlers.RpcService.HandleRpcRequest` | src/handlers.ts:81-121 | a non-request gets `invalidRequest` with a null id and no change; an unknown method gets `methodNotFound` and no change; an absent `params` is a TypeError with no change; otherwise the routed handler's full postcondition (new state and outcome) holds and the response carries its result, or `internalError("Internal error")` for any failure; no response carries `invalidParams`; counters stay in sync; while the secret map is as `getSecret` leaves it, every request to `addUser`, `addMessage`, `addLike` or `getUserLikes` gets `internalError` and changes nothing |
| `Server.PreHandler` | src/server.js:40-61 | non-POST passes; POST missing a signature, an address or the secret stored under the raw header gets 400; an unreadable signature gets 400; a recovered address differing case-insensitively gets 401; a POST passes if and only if the stored secret's signer is the header address, compared case-insensitively |
| `Server.IssueThenSignPasses` | src/server.js:40-61 | after the constant secret is stored under a lower-case address, a POST with that address and a signature of the secret that recovers to it passes the hook |
| `Server.MixedCaseAddressRefused` | src/server.js:45-50 | with secrets stored under lower-cased keys, a POST whose header address has an upper-case letter is refused as missing credentials |
| `Server.ReissueKeepsSignatureValid` | src/server.js:268-273 | re-issuing a secret to any address leaves every accepted signature accepted: the stored value never changes |
| `Server.TokenField` | src/server.js:108-116 | a non-object body gets 400; an undefined token address gets 500 (TypeError); a non-address gets 500 "Invalid address"; otherwise the lower-cased token address |
| `Server.RestService.constructor` | src/server.js:21 | the secret map starts empty |
| `Server.RestService.GetSecret` | src/server.js:260-280 | a missing header or a non-address (after lower-casing) gets 500 with no change; otherwise the lower-cased address maps to the constant secret, which is also the reply; new keys are lower-case |
| `Server.RestService.CheckTokenExist` | src/server.js:80-102 | true for a stored token; otherwise true after storing `{like: 0}` on a matching subgraph id, false on a failed call, undefined on another id; counters stay in sync |
| `Server.RestService.AddMessage` | src/server.js:106-131 | a refused body changes nothing; otherwise the resolver's effect plus exactly one `massage` document with the raw header address; never 404; the `message` collection is never written |
| `Server.RestService.AddOrUpdateUser` | src/server.js:132-154 | a non-object body gets 400 and no change; otherwise the user document under the header address is replaced by `{userName, image}` |
| `Server.RestService.AddOrDeleteLike` | src/server.js:155-198 | a refused body changes nothing; a truthy `like` is one like `Toggle` step on the resolved table; a falsy one changes neither rows nor counters; never 404 |
| `Server.RestService.HandlePost` | src/server.js:40-66 | a POST the hook answers changes nothing and gets the hook's reply; one it passes reaches its route with a present header address, lower-case whenever the stored secrets are as issued, and the route's full postcondition (new state and reply) holds; the `message` collection is never written; counters stay in sync on the user and message routes |

## Left out

- Database failures: every driver call succeeds in the model. So the `catch` blocks are reached only through the modelled exceptions: a TypeError, an ethers error, or a subgraph failure.
- Timestamps (`new Date()`): they are not stored, so a like row is a bare `(address, tokenAddress)` pair.
- Handlers.RpcService.GetMessages: the contract states which documents the reply holds and how many copies of each, with the `skip`/`limit` values handed to the cursor, but not their order. Sorting by timestamp and applying skip/limit are not modelled, because they are library semantics.
- Handlers.RpcService.GetUserLikes: the reply is the set of the caller's rows, with `skip`/`limit`. The same cursor semantics are not modelled.
- Concurrency: each handler is one atomic step. Interleavings between the row write and the `$inc` write are not modelled, and neither are concurrent resolver upserts.
- Server.RestService.AddOrDeleteLike, Server.RestService.AddMessage: the unawaited `checkTokenExist` is modelled as completing before the writes that follow it. Its subgraph HTTP call is slow, so the likelier order is the reverse. The message or the like row and its `$inc` land first, and the `$inc` finds no token. Then the `{like: 0}` upsert lands, which leaves a resolvable token at counter 0 with one like row. This order is not modelled.
- Mongo.Db.UpsertToken, Mongo.Db.UpsertUser, Mongo.Db.UpsertLike: the calls at src/handlers.ts:49-57, :141-147, :227-233 and src/server.js:90-94, :140-145, :171-175 pass `updateOne` a document without `$` operators. The MongoDB Node driver refuses such an update document (a replacement belongs to `replaceOne`), so as written these calls throw. The model treats them as replacement upserts, which is what the code evidently means; it does not capture that these writes throw.
- Cryptography. ethers' `isAddress` and `verifyMessage` are oracle parameters, so checksum rules are not modelled. The sha256 digest of random bytes is a parameter (`digest`). `Lower` lower-cases ASCII only.
- The subgraph HTTP call and its GraphQL query are an oracle. It returns the token id, or nothing for a failed call or a null token.
- JSON typing: `params`/body fields are strings, booleans or numbers, or undefined. A non-object body, an absent `params` and a non-string token address are modelled as undefined (the same TypeError). A non-boolean truthy `like` is not modelled. The JSON-RPC parser is abstracted to "request or not".
- Exception payloads: the data of `internalError(error)` and the messages of runtime exceptions are not modelled. The dispatch replaces them, or they are sent as an opaque `ThrownError`.
- The REST read routes `getUser`, `getMessages`, `getToken` and `getUserLikes` (src/server.js:199-259) are not part of this model. Neither are file upload (`uploadFile`, src/uploadHandler.ts), the OpenAPI documentation strings, environment and database bootstrap (src/init.*, src/env.ts, src/db.ts), or route registration in src/server.ts.
